/** The connection and calling states of WampccMessaging
    (src/lib/osDataImpl/src/WampccMessaging.cpp:140-164 and 348-404). */
module Messaging {

  datatype States = Idle | Disconnected | DisconnectedCalling | Connected | ConnectedCalling | ConnectedCallingAbort

  /** What the caller of a procedure gets: the result, an error, or no answer. */
  datatype Reply = Yielded(result: string) | Errored | Nothing

  predicate IsStateConnected(s: States) {
    s.Connected? || s.ConnectedCalling? || s.ConnectedCallingAbort?
  }

  class WampccMessaging {
    var state: States
    var notifications: seq<bool>
    var replies: seq<Reply>

    ghost function Snapshot(): Messenger
      reads this
    {
      Messenger(state, notifications, replies)
    }

    constructor ()
      ensures Snapshot() == START
    {
      state, notifications, replies := Idle, [], [];
    }

    method SetStateConnected()
      modifies this
      ensures Snapshot() == Do(old(Snapshot()), Connect)
    {
      match state {
        case Idle => state := Connected;
        case Disconnected => state := Connected;
        case DisconnectedCalling => state := ConnectedCallingAbort;
        case Connected =>
        case ConnectedCalling =>
        case ConnectedCallingAbort =>
      }
      notifications := notifications + [true];
    }

    method SetStateDisconnected()
      modifies this
      ensures Snapshot() == Do(old(Snapshot()), Disconnect)
    {
      match state {
        case Disconnected =>
        case DisconnectedCalling =>
        case Idle => state := Disconnected;
        case Connected => state := Disconnected;
        case ConnectedCalling => state := DisconnectedCalling;
        case ConnectedCallingAbort => state := DisconnectedCalling;
      }
      notifications := notifications + [false];
    }

    /** The invocation handler up to the call of the delegate; connection changes may happen during that call. */
    method BeginCall()
      modifies this
      ensures Snapshot() == Do(old(Snapshot()), Begin)
    {
      state := ConnectedCalling;
    }

    /** The rest of the handler, when the delegate has returned. */
    method EndCall(result: string)
      modifies this
      ensures Snapshot() == Do(old(Snapshot()), Return(result))
    {
      if state == ConnectedCalling {
        replies := replies + [Yielded(result)];
        state := Connected;
      } else {
        replies := replies + [Nothing];
      }
    }

    /** The catch clause. It leaves the state as it is. */
    method FailCall()
      modifies this
      ensures Snapshot() == Do(old(Snapshot()), Throw)
    {
      replies := replies + [Errored];
    }
  }

  // ----- runs

  datatype Step = Connect | Disconnect | Begin | Return(result: string) | Throw

  datatype Messenger = Messenger(state: States, notifications: seq<bool>, replies: seq<Reply>)

  const START := Messenger(Idle, [], [])

  function Do(m: Messenger, step: Step): Messenger {
    match step
    case Connect =>
      var next := match m.state
        case Idle | Disconnected => Connected
        case DisconnectedCalling => ConnectedCallingAbort
        case s => s;
      m.(state := next, notifications := m.notifications + [true])
    case Disconnect =>
      var next := match m.state
        case Idle | Connected => Disconnected
        case ConnectedCalling | ConnectedCallingAbort => DisconnectedCalling
        case s => s;
      m.(state := next, notifications := m.notifications + [false])
    case Begin => m.(state := ConnectedCalling)
    case Return(result) =>
      if m.state.ConnectedCalling? then m.(state := Connected, replies := m.replies + [Yielded(result)])
      else m.(replies := m.replies + [Nothing])
    case Throw => m.(replies := m.replies + [Errored])
  }

  function RunAll(steps: seq<Step>): Messenger {
    if steps == [] then START else Do(RunAll(steps[..|steps| - 1]), steps[|steps| - 1])
  }

  /** A call has begun and is not over. */
  predicate InCall(steps: seq<Step>) {
    steps != [] &&
    var last := steps[|steps| - 1];
    last.Begin? || ((last.Connect? || last.Disconnect?) && InCall(steps[..|steps| - 1]))
  }

  /** One call at a time, and calls begin only when connected. */
  ghost predicate Legal(steps: seq<Step>) {
    steps == [] ||
    var init, last := steps[..|steps| - 1], steps[|steps| - 1];
    && Legal(init)
    && (last.Begin? ==> !InCall(init) && IsStateConnected(RunAll(init).state))
    && (last.Return? || last.Throw? ==> InCall(init))
  }

  /** The connection was lost since the last call began. */
  predicate LostSinceBegin(steps: seq<Step>) {
    steps != [] &&
    var last := steps[|steps| - 1];
    !last.Begin? && (last.Disconnect? || LostSinceBegin(steps[..|steps| - 1]))
  }

  /** The last notification, false before the first. */
  ghost predicate LastNotified(m: Messenger) {
    m.notifications != [] && m.notifications[|m.notifications| - 1]
  }

  /** While a call runs the state tells whether the connection was lost since it began, and at all times whether
      the last notification was a connection. */
  lemma {:induction false} StateTells(steps: seq<Step>)
    requires Legal(steps)
    ensures IsStateConnected(RunAll(steps).state) <==> LastNotified(RunAll(steps))
    ensures InCall(steps) ==> (RunAll(steps).state.ConnectedCalling? <==> !LostSinceBegin(steps))
    ensures InCall(steps) ==> !RunAll(steps).state.Idle? && !RunAll(steps).state.Disconnected? && !RunAll(steps).state.Connected?
    decreases |steps|
  {
    if steps != [] { StateTells(steps[..|steps| - 1]); }
  }

  /** No stale reply: over all legal interleavings, a call that returns has its result yielded exactly when the
      connection was not lost since the call began; after a loss nothing is sent, even when the connection is back. */
  lemma NoStaleReply(steps: seq<Step>, result: string)
    requires Legal(steps + [Return(result)])
    ensures RunAll(steps + [Return(result)]).replies
         == RunAll(steps).replies + [if LostSinceBegin(steps) then Nothing else Yielded(result)]
  {
    LastStep(steps, Return(result));
    StateTells(steps);
  }

  lemma LastStep(steps: seq<Step>, step: Step)
    ensures RunAll(steps + [step]) == Do(RunAll(steps), step)
    ensures Legal(steps + [step]) ==> Legal(steps) && (step.Return? || step.Throw? ==> InCall(steps))
  {
    assert (steps + [step])[..|steps|] == steps;
  }

  /** No call runs, and the last one has returned to a connection that was never lost. */
  predicate Rested(steps: seq<Step>) {
    steps == [] ||
    var init, last := steps[..|steps| - 1], steps[|steps| - 1];
    match last
    case Connect | Disconnect => Rested(init)
    case Begin | Throw => false
    case Return(_) => !LostSinceBegin(init)
  }

  /** The state after any legal run, from its steps alone: a call that throws, or that returns after a loss, leaves the
      state a calling one, which the next call takes over. */
  lemma {:induction false} StateIs(steps: seq<Step>)
    requires Legal(steps)
    ensures var m := RunAll(steps);
            m.state == if Rested(steps) then
                         if m.notifications == [] then Idle else if LastNotified(m) then Connected else Disconnected
                       else if !LostSinceBegin(steps) then ConnectedCalling
                       else if LastNotified(m) then ConnectedCallingAbort
                       else DisconnectedCalling
    ensures InCall(steps) ==> !Rested(steps)
    decreases |steps|
  {
    if steps != [] {
      var init := steps[..|steps| - 1];
      StateIs(init);
      StateTells(init);
    }
  }

  /** Beginning a call keeps the connected state in line with the notifications if and only if it was connected:
      a call that begins while disconnected makes isStateConnected true without a notification. */
  lemma BeginKeepsIff(steps: seq<Step>)
    requires Legal(steps)
    ensures (IsStateConnected(RunAll(steps + [Begin]).state) <==> LastNotified(RunAll(steps + [Begin])))
       <==> IsStateConnected(RunAll(steps).state)
  {
    LastStep(steps, Begin);
    StateTells(steps);
  }

  /** The connection changes of a run. */
  ghost function Changes(steps: seq<Step>): seq<bool> {
    if steps == [] then []
    else
      var last := steps[|steps| - 1];
      Changes(steps[..|steps| - 1]) + if last.Connect? then [true] else if last.Disconnect? then [false] else []
  }

  /** How many calls of a run are over. */
  ghost function Answered(steps: seq<Step>): nat {
    if steps == [] then 0
    else
      var last := steps[|steps| - 1];
      Answered(steps[..|steps| - 1]) + if last.Return? || last.Throw? then 1 else 0
  }

  /** Each change of the connection is notified once, even one that changes nothing, in order; and each call that is over has
      one reply. */
  lemma {:induction false} NotifiesAndAnswersEach(steps: seq<Step>)
    ensures RunAll(steps).notifications == Changes(steps) && |RunAll(steps).replies| == Answered(steps)
    decreases |steps|
  {
    if steps != [] { NotifiesAndAnswersEach(steps[..|steps| - 1]); }
  }

  ghost predicate ConnectionOnly(steps: seq<Step>) {
    forall k :: 0 <= k < |steps| ==> steps[k].Connect? || steps[k].Disconnect?
  }

  /** Connection changes neither end a call nor begin one, and they answer nothing. */
  lemma {:induction false} ConnectionChanges(steps: seq<Step>, changes: seq<Step>)
    requires Legal(steps) && ConnectionOnly(changes)
    ensures Legal(steps + changes) && (InCall(steps + changes) <==> InCall(steps))
    ensures RunAll(steps + changes).replies == RunAll(steps).replies
    ensures LostSinceBegin(steps + changes) <==> LostSinceBegin(steps) || Disconnect in changes
    decreases |changes|
  {
    hide Legal, InCall, LostSinceBegin, RunAll;
    if changes == [] {
      assert steps + changes == steps;
    } else {
      var init, last := changes[..|changes| - 1], changes[|changes| - 1];
      ConnectionChanges(steps, init);
      assert changes == init + [last] && steps + changes == (steps + init) + [last];
      OneChange(steps + init, last);
    }
  }

  lemma OneChange(steps: seq<Step>, change: Step)
    requires Legal(steps) && (change.Connect? || change.Disconnect?)
    ensures Legal(steps + [change]) && (InCall(steps + [change]) <==> InCall(steps))
    ensures RunAll(steps + [change]).replies == RunAll(steps).replies
    ensures LostSinceBegin(steps + [change]) <==> LostSinceBegin(steps) || change.Disconnect?
  {
    assert (steps + [change])[..|steps|] == steps;
  }

  /** A call that throws leaves its state behind, but not its effect: after any connection changes, the next call is
      answered exactly when the connection is not lost while it runs. */
  lemma ThrowIsForgotten(steps: seq<Step>, between: seq<Step>, during: seq<Step>, result: string)
    requires Legal(steps + [Throw]) && ConnectionOnly(between) && ConnectionOnly(during)
    requires IsStateConnected(RunAll(steps + [Throw] + between).state)
    ensures var run := steps + [Throw] + between + [Begin] + during + [Return(result)];
            Legal(run) && RunAll(run).replies
                          == RunAll(steps).replies + [Errored, if Disconnect in during then Nothing else Yielded(result)]
  {
    hide Legal, InCall, LostSinceBegin, RunAll, Do;
    var thrown := steps + [Throw];
    ThrowEnds(steps);
    ConnectionChanges(thrown, between);
    var next := thrown + between + [Begin];
    BeginStarts(thrown + between);
    ConnectionChanges(next, during);
    ReturnEnds(next + during, result);
    NoStaleReply(next + during, result);
  }

  lemma ThrowEnds(steps: seq<Step>)
    requires Legal(steps + [Throw])
    ensures !InCall(steps + [Throw]) && RunAll(steps + [Throw]).replies == RunAll(steps).replies + [Errored]
  {
    LastStep(steps, Throw);
  }

  lemma BeginStarts(steps: seq<Step>)
    requires Legal(steps) && !InCall(steps) && IsStateConnected(RunAll(steps).state)
    ensures var next := steps + [Begin];
            Legal(next) && InCall(next) && !LostSinceBegin(next) && RunAll(next).replies == RunAll(steps).replies
  {
    LastStep(steps, Begin);
    assert (steps + [Begin])[..|steps|] == steps;
  }

  lemma ReturnEnds(steps: seq<Step>, result: string)
    requires Legal(steps) && InCall(steps)
    ensures Legal(steps + [Return(result)])
  {
    assert (steps + [Return(result)])[..|steps|] == steps;
  }
}
