/** LogOutputDataExchange: log messages pushed to an exchange, and kept while it is not connected
    (src/lib/osDataImpl/src/LogOutputDataExchange.cpp:62-91). */
module LogBuffer {
  import opened Sequences

  /** `accepted` is what the exchange has taken, in order. */
  datatype State = State(connected: bool, accepted: seq<string>, buffer: seq<string>)

  const START := State(false, [], [])

  /** log, when a push would succeed or throw. */
  function LogOne(s: State, msg: string, ok: bool): State {
    if !s.connected then s.(buffer := s.buffer + [msg])
    else if ok then s.(accepted := s.accepted + [msg])
    else s.(connected := false, buffer := s.buffer + [msg])
  }

  /** The loop of onConnected. It runs over the messages buffered when it starts; a push that fails inside it puts
      its message, and the following ones, at the end of the same vector. */
  function Flush(s: State, msgs: seq<string>, ok: nat -> bool, n: nat): State
    requires n <= |msgs|
  {
    if n == 0 then s else LogOne(Flush(s, msgs, ok, n - 1), msgs[n - 1], ok(n - 1))
  }

  function OnConnected(s: State, ok: nat -> bool): State {
    var r := Flush(s.(connected := true), s.buffer, ok, |s.buffer|);
    r.(buffer := [])
  }

  class LogOutputDataExchange {
    var connected: bool
    var accepted: seq<string>
    var buffer: seq<string>

    ghost function Snapshot(): State
      reads this
    {
      State(connected, accepted, buffer)
    }

    constructor ()
      ensures Snapshot() == START
    {
      connected, accepted, buffer := false, [], [];
    }

    /** `ok` is whether a push would be accepted now. */
    method Log(msg: string, ok: bool)
      modifies this
      ensures Snapshot() == LogOne(old(Snapshot()), msg, ok)
    {
      if connected {
        if ok {
          accepted := accepted + [msg];
        } else {
          connected := false;
          buffer := buffer + [msg];
        }
      } else {
        buffer := buffer + [msg];
      }
    }

    /** `ok` tells for each push of the flush whether it would be accepted. */
    method DoOnConnected(isConnected: bool, ok: nat -> bool)
      modifies this
      ensures Snapshot() == if isConnected then OnConnected(old(Snapshot()), ok) else old(Snapshot()).(connected := false)
    {
      connected := isConnected;
      if connected {
        var messages := buffer;
        ghost var start := Snapshot();
        var i := 0;
        while i < |messages|
          invariant i <= |messages| && Snapshot() == Flush(start, messages, ok, i)
        {
          Log(messages[i], ok(i));
          i := i + 1;
        }
        buffer := [];
      }
    }
  }

  // ----- runs

  datatype Op = Logged(msg: string, ok: bool) | Connected(okFlush: nat -> bool) | Disconnected

  function Do(s: State, op: Op): State {
    match op
    case Logged(msg, ok) => LogOne(s, msg, ok)
    case Connected(okFlush) => OnConnected(s, okFlush)
    case Disconnected => s.(connected := false)
  }

  ghost function RunAll(ops: seq<Op>): State {
    if ops == [] then START else Do(RunAll(ops[..|ops| - 1]), ops[|ops| - 1])
  }

  /** The messages of the run, in order. */
  ghost function Messages(ops: seq<Op>): seq<string> {
    if ops == [] then [] else
      var last := ops[|ops| - 1];
      Messages(ops[..|ops| - 1]) + if last.Logged? then [last.msg] else []
  }

  /** The pushes of a flush that succeed before the first that does not. */
  ghost function Successes(ok: nat -> bool, n: nat): nat
    ensures Successes(ok, n) <= n
  {
    if n == 0 then 0
    else if Successes(ok, n - 1) == n - 1 && ok(n - 1) then n
    else Successes(ok, n - 1)
  }

  /** Every push of every flush is accepted. */
  ghost predicate NoFlushFails(ops: seq<Op>) {
    ops == [] ||
    var init, last := ops[..|ops| - 1], ops[|ops| - 1];
    && NoFlushFails(init)
    && (last.Connected? ==> forall k: nat :: k < |RunAll(init).buffer| ==> last.okFlush(k))
  }

  lemma {:induction false} AllSucceedIff(ok: nat -> bool, n: nat)
    ensures Successes(ok, n) == n <==> forall k: nat :: k < n ==> ok(k)
  {
    if n > 0 {
      AllSucceedIff(ok, n - 1);
      assert n - 1 < n;
    }
  }

  /** What a flush hands over, and whether the exchange is still connected afterwards. */
  lemma {:induction false} FlushHandsOver(s: State, msgs: seq<string>, ok: nat -> bool, n: nat)
    requires n <= |msgs| && s.connected
    ensures var r := Flush(s, msgs, ok, n);
            && r.accepted == s.accepted + msgs[..Successes(ok, n)]
            && (r.connected <==> Successes(ok, n) == n)
  {
    if n > 0 {
      FlushHandsOver(s, msgs, ok, n - 1);
      var k := Successes(ok, n - 1);
      if k == n - 1 && ok(n - 1) {
        Associate(s.accepted, msgs[..n - 1], [msgs[n - 1]]);
        assert msgs[..n - 1] + [msgs[n - 1]] == msgs[..n];
      }
    } else {
      assert msgs[..0] == [];
    }
  }

  /** Conservation, exactly: over any run the messages the exchange accepted, followed by the buffer, are the
      logged messages in order if and only if no push failed inside a flush; they are never more than were logged;
      and between steps a connected output has an empty buffer. */
  lemma {:induction false} ConservesIff(ops: seq<Op>)
    ensures var s := RunAll(ops);
            && (s.connected ==> s.buffer == [])
            && |s.accepted + s.buffer| <= |Messages(ops)|
            && (s.accepted + s.buffer == Messages(ops) <==> NoFlushFails(ops))
            && (|s.accepted + s.buffer| == |Messages(ops)| ==> NoFlushFails(ops))
    decreases |ops|
  {
    if ops != [] {
      var init, last := ops[..|ops| - 1], ops[|ops| - 1];
      var s := RunAll(init);
      ConservesIff(init);
      if last.Logged? {
        Associate(s.accepted, s.buffer, [last.msg]);
        assert s.connected ==> s.accepted + s.buffer == s.accepted;
        assert RunAll(ops).accepted + RunAll(ops).buffer == s.accepted + s.buffer + [last.msg];
      } else if last.Connected? {
        FlushHandsOver(s.(connected := true), s.buffer, last.okFlush, |s.buffer|);
        AllSucceedIff(last.okFlush, |s.buffer|);
        assert s.buffer[..|s.buffer|] == s.buffer;
        assert RunAll(ops).accepted + RunAll(ops).buffer == s.accepted + s.buffer[..Successes(last.okFlush, |s.buffer|)];
      }
    }
  }

  /** The output is connected: since it was last connected, in a flush that was accepted throughout, no push has failed and it
      was not disconnected. */
  ghost predicate Up(ops: seq<Op>)
    decreases |ops|, 1
  {
    ops != [] &&
    var init, last := ops[..|ops| - 1], ops[|ops| - 1];
    match last
    case Logged(_, ok) => Up(init) && ok
    case Connected(okFlush) => forall k: nat :: k < |Held(init)| ==> okFlush(k)
    case Disconnected => false
  }

  /** What is logged while it is not connected, from the push that fails on; a flush leaves nothing. */
  ghost function Held(ops: seq<Op>): seq<string>
    decreases |ops|, if ops == [] then 0 else 2
  {
    if ops == [] || ops[|ops| - 1].Connected? || Up(ops) then []
    else
      var last := ops[|ops| - 1];
      Held(ops[..|ops| - 1]) + if last.Logged? then [last.msg] else []
  }

  /** After any run, when the output is connected and what it holds back. */
  lemma {:induction false} HoldsBack(ops: seq<Op>)
    ensures RunAll(ops).connected <==> Up(ops)
    ensures RunAll(ops).buffer == Held(ops)
    decreases |ops|
  {
    if ops != [] {
      var init, last := ops[..|ops| - 1], ops[|ops| - 1];
      var s := RunAll(init);
      HoldsBack(init);
      ConservesIff(init);
      if last.Connected? {
        FlushHandsOver(s.(connected := true), s.buffer, last.okFlush, |s.buffer|);
        AllSucceedIff(last.okFlush, |s.buffer|);
      }
    }
  }
}
