/** The receiving side of the paged transport: PagedDataExchange::DataExchangeDelegate
    (src/lib/osData/src/PagedDataExchange.cpp:27-67). */
module Reassembly {
  import opened Sequences
  import opened Paging

  datatype State = State(buffer: ByteBuffer, currentPage: nat, currentNbPages: nat)

  /** What one received page leads to: an exception, or acceptance with the buffer handed to the delegate, if any. */
  datatype Reception = Thrown | Accepted(delivered: seq<ByteBuffer>)

  const IDLE := State([], 0, 0)

  /** onDataReceived. A throw keeps the changes made before it. */
  function Receive(s: State, page: ByteBuffer): (State, Reception) {
    if |page| < HEADER_SIZE then (s, Thrown)
    else
      var number, total := PageNumber(page), PageTotal(page);
      if s.currentNbPages != 0 && s.currentNbPages != total then (s, Thrown)
      else
        var s1 := if s.currentNbPages == 0 then State([], s.currentPage, total) else s;
        if s1.currentPage + 1 != number then (s1, Thrown)
        else
          var buffer := s1.buffer + Payload(page);
          var delivered := if number == total then [buffer] else [];
          if number == s1.currentNbPages then (State(if number == total then [] else buffer, 0, 0), Accepted(delivered))
          else (State(if number == total then [] else buffer, number, s1.currentNbPages), Accepted(delivered))
  }

  class Receiver {
    var buffer: ByteBuffer
    var currentPage: nat
    var currentNbPages: nat

    ghost function Snapshot(): State
      reads this
    {
      State(buffer, currentPage, currentNbPages)
    }

    constructor ()
      ensures Snapshot() == IDLE
    {
      buffer, currentPage, currentNbPages := [], 0, 0;
    }

    method OnDataReceived(page: ByteBuffer) returns (r: Reception)
      modifies this
      ensures (Snapshot(), r) == Receive(old(Snapshot()), page)
    {
      if |page| < HEADER_SIZE {
        return Thrown;
      }
      var number, total := PageNumber(page), PageTotal(page);
      if currentNbPages == 0 {
        buffer := [];
        currentNbPages := total;
      } else if currentNbPages != total {
        return Thrown;
      }
      if currentPage + 1 != number {
        return Thrown;
      }
      currentPage := currentPage + 1;
      buffer := buffer + Payload(page);
      r := Accepted([]);
      if number == total {
        r := Accepted([buffer]);
        buffer := [];
      }
      if currentPage == currentNbPages {
        currentNbPages := 0;
        currentPage := 0;
      }
    }
  }

  // ----- a stream of pages

  /** The receiver after a stream, with the pages it accepted and the buffers it delivered. */
  datatype Log = Log(state: State, accepted: seq<ByteBuffer>, delivered: seq<ByteBuffer>)

  ghost function Advance(log: Log, page: ByteBuffer): Log {
    var (s', r) := Receive(log.state, page);
    if r.Thrown? then Log(s', log.accepted, log.delivered)
    else Log(s', log.accepted + [page], log.delivered + r.delivered)
  }

  ghost function Feed(s: State, stream: seq<ByteBuffer>): Log
    decreases |stream|
  {
    if stream == [] then Log(s, [], []) else Advance(Feed(s, stream[..|stream| - 1]), stream[|stream| - 1])
  }

  /** Between steps either nothing is in progress, or the current page is below the page count. */
  ghost predicate Between(s: State) {
    (s.currentPage == 0 && s.currentNbPages == 0) || s.currentPage < s.currentNbPages
  }

  /** Pages 1, 2, ... of one message of `n` pages. */
  ghost predicate Numbered(pages: seq<ByteBuffer>, n: nat) {
    forall k :: 0 <= k < |pages| ==> |pages[k]| >= HEADER_SIZE && PageNumber(pages[k]) == k + 1 && PageTotal(pages[k]) == n
  }

  ghost predicate HasHeaders(stream: seq<ByteBuffer>) {
    forall k :: 0 <= k < |stream| ==> |stream[k]| >= HEADER_SIZE && PageTotal(stream[k]) >= 1
  }

  ghost function Payloads(pages: seq<ByteBuffer>): seq<ByteBuffer>
    requires forall k :: 0 <= k < |pages| ==> |pages[k]| >= HEADER_SIZE
  {
    seq(|pages|, k requires 0 <= k < |pages| => Payload(pages[k]))
  }

  lemma PayloadsAppend(pages: seq<ByteBuffer>, page: ByteBuffer)
    requires |page| >= HEADER_SIZE && forall k :: 0 <= k < |pages| ==> |pages[k]| >= HEADER_SIZE
    ensures Flatten(Payloads(pages + [page])) == Flatten(Payloads(pages)) + Payload(page)
  {
    assert Payloads(pages + [page]) == Payloads(pages) + [Payload(page)];
    FlattenAppend(Payloads(pages), [Payload(page)]);
    assert Flatten([Payload(page)]) == Payload(page) + Flatten([Payload(page)][1..]);
  }

  /** The accepted pages, cut into complete messages and the message in progress. */
  ghost predicate Explains(log: Log, groups: seq<seq<ByteBuffer>>, partial: seq<ByteBuffer>) {
    && log.accepted == Flatten(groups) + partial
    && |groups| == |log.delivered|
    && (forall g :: 0 <= g < |groups| ==> Delivers(groups[g], log.delivered[g]))
    && |partial| == log.state.currentPage
    && Numbered(partial, log.state.currentNbPages)
    && (log.state.currentNbPages > 0 ==> log.state.buffer == Flatten(Payloads(partial)))
  }

  /** A complete message: its pages are numbered 1..n, all carry the count n, and the buffer is their payloads joined. */
  ghost predicate Delivers(pages: seq<ByteBuffer>, buffer: ByteBuffer) {
    pages != [] && Numbered(pages, |pages|) && buffer == Flatten(Payloads(pages))
  }

  lemma ReceiveExplains(log: Log, page: ByteBuffer, groups: seq<seq<ByteBuffer>>, partial: seq<ByteBuffer>)
    returns (groups': seq<seq<ByteBuffer>>, partial': seq<ByteBuffer>)
    requires Between(log.state) && Explains(log, groups, partial) && |page| >= HEADER_SIZE && PageTotal(page) >= 1
    ensures Between(Advance(log, page).state) && Explains(Advance(log, page), groups', partial')
  {
    var (s', r) := Receive(log.state, page);
    groups', partial' := groups, partial;
    if r.Accepted? {
      var group := partial + [page];
      PayloadsAppend(partial, page);
      assert log.state.currentNbPages == 0 ==> partial == [];
      assert Numbered(group, PageTotal(page));
      assert (Flatten(groups) + partial) + [page] == Flatten(groups) + group;
      if PageNumber(page) == PageTotal(page) {
        groups', partial' := groups + [group], [];
        FlattenAppend(groups, [group]);
        assert Flatten([group]) == group + Flatten([group][1..]);
        assert Flatten(groups') + [] == Flatten(groups) + group;
      } else {
        partial' := group;
      }
    }
  }

  /** Soundness: whatever pages arrive, each delivered buffer is the payloads of accepted pages numbered 1..n that
      all carry the count n, joined in order; no accepted page is used twice or dropped. */
  lemma {:induction false} DeliveredIsReassembled(stream: seq<ByteBuffer>) returns (groups: seq<seq<ByteBuffer>>, partial: seq<ByteBuffer>)
    requires HasHeaders(stream)
    ensures Between(Feed(IDLE, stream).state) && Explains(Feed(IDLE, stream), groups, partial)
    decreases |stream|
  {
    if stream == [] {
      groups, partial := [], [];
    } else {
      var init := stream[..|stream| - 1];
      groups, partial := DeliveredIsReassembled(init);
      groups, partial := ReceiveExplains(Feed(IDLE, init), stream[|stream| - 1], groups, partial);
    }
  }

  // ----- round trip

  ghost function Then(a: Log, b: Log): Log {
    Log(b.state, a.accepted + b.accepted, a.delivered + b.delivered)
  }

  lemma AdvanceThen(a: Log, b: Log, page: ByteBuffer)
    ensures Advance(Then(a, b), page) == Then(a, Advance(b, page))
  {
  }

  lemma FeedLast(s: State, init: seq<ByteBuffer>, page: ByteBuffer)
    ensures Feed(s, init + [page]) == Advance(Feed(s, init), page)
  {
  }

  /** A page shorter than the header makes no difference anywhere in a stream. */
  lemma ShortPageIsSkipped(s: State, before: seq<ByteBuffer>, page: ByteBuffer, after: seq<ByteBuffer>)
    requires |page| < HEADER_SIZE
    ensures Feed(s, before + [page] + after) == Feed(s, before + after)
  {
    hide Feed;
    FeedLast(s, before, page);
    FeedJoin(s, before + [page], after);
    FeedJoin(s, before, after);
  }

  lemma {:induction false} FeedJoin(s: State, xs: seq<ByteBuffer>, ys: seq<ByteBuffer>)
    ensures Feed(s, xs + ys) == Then(Feed(s, xs), Feed(Feed(s, xs).state, ys))
    decreases |ys|
  {
    if ys == [] {
      assert xs + ys == xs;
    } else {
      var init, last := ys[..|ys| - 1], ys[|ys| - 1];
      assert xs + ys == (xs + init) + [last] && ys == init + [last];
      FeedJoin(s, xs, init);
      FeedLast(s, xs + init, last);
      FeedLast(Feed(s, xs).state, init, last);
      AdvanceThen(Feed(s, xs), Feed(Feed(s, xs).state, init), last);
    }
  }

  /** A page of a message of `n` pages, received by a receiver that expects this count: it must be the next one, and the
      last one delivers. */
  lemma PageOfCount(s: State, number: nat, n: nat, payload: ByteBuffer)
    requires s.currentPage < s.currentNbPages == n < U16 && number <= n
    ensures Receive(s, MakePage(number, n, payload)) ==
              if s.currentPage + 1 != number then (s, Thrown)
              else if number == n then (IDLE, Accepted([s.buffer + payload]))
              else (State(s.buffer + payload, number, n), Accepted([]))
  {
  }

  lemma FeedPrefix(s: State, stream: seq<ByteBuffer>, k: nat)
    requires k < |stream|
    ensures Feed(s, stream[..k + 1]) == Advance(Feed(s, stream[..k]), stream[k])
  {
    assert stream[..k + 1] == stream[..k] + [stream[k]];
    FeedLast(s, stream[..k], stream[k]);
  }

  lemma FlattenNext(chunks: seq<ByteBuffer>, from: nat, to: nat)
    requires from <= to < |chunks|
    ensures Flatten(chunks[from..to + 1]) == Flatten(chunks[from..to]) + chunks[to]
    ensures Flatten(chunks[from..from]) == []
  {
    assert chunks[from..to + 1] == chunks[from..to] + [chunks[to]];
    FlattenAppend(chunks[from..to], [chunks[to]]);
    assert Flatten([chunks[to]]) == chunks[to] + Flatten([chunks[to]][1..]);
  }

  /** The first `j` pages of a message, received by a receiver that expects their count: those it has had are thrown, the
      others are appended. */
  lemma {:induction false} FeedCounted(s: State, chunks: seq<ByteBuffer>, j: nat)
    requires s.currentPage < s.currentNbPages == |chunks| < U16 && j < |chunks|
    ensures var log := Feed(s, Pages(chunks)[..j]);
            && log.delivered == []
            && log.state == (if j <= s.currentPage then s else State(s.buffer + Flatten(chunks[s.currentPage..j]), j, |chunks|))
    decreases j
  {
    hide MakePage, Receive, Flatten;
    if j > 0 {
      FeedCounted(s, chunks, j - 1);
      FeedPrefix(s, Pages(chunks), j - 1);
      PageOfCount(Feed(s, Pages(chunks)[..j - 1]).state, j, |chunks|, chunks[j - 1]);
      if j > s.currentPage { FlattenNext(chunks, s.currentPage, j - 1); }
    }
  }

  /** A whole message, received by a receiver that expects its count: it completes what was begun, whoever began it. */
  lemma FeedCompletes(s: State, chunks: seq<ByteBuffer>)
    requires s.currentPage < s.currentNbPages == |chunks| < U16
    ensures var log := Feed(s, Pages(chunks));
            log.state == IDLE && log.delivered == [s.buffer + Flatten(chunks[s.currentPage..])]
  {
    hide MakePage, Receive, Flatten, Feed;
    var n, k := |chunks|, s.currentPage;
    FeedCounted(s, chunks, n - 1);
    FeedPrefix(s, Pages(chunks), n - 1);
    assert Pages(chunks)[..n] == Pages(chunks) && chunks[k..n] == chunks[k..];
    PageOfCount(Feed(s, Pages(chunks)[..n - 1]).state, n, n, chunks[n - 1]);
    FlattenNext(chunks, k, n - 1);
    assert s.buffer + Flatten(chunks[k..n - 1]) + chunks[n - 1] == s.buffer + (Flatten(chunks[k..n - 1]) + chunks[n - 1]);
    assert s.buffer + [] == s.buffer;
  }

  /** A receiver that expects another count throws every page of the message and stays as it is. */
  lemma {:induction false} FeedThrown(s: State, chunks: seq<ByteBuffer>, j: nat)
    requires j <= |chunks| < U16 && s.currentNbPages != 0 && s.currentNbPages != |chunks|
    ensures Feed(s, Pages(chunks)[..j]).state == s && Feed(s, Pages(chunks)[..j]).delivered == []
    decreases j
  {
    hide MakePage;
    if j > 0 {
      FeedThrown(s, chunks, j - 1);
      FeedPrefix(s, Pages(chunks), j - 1);
      HeaderOfPage(j, |chunks|, chunks[j - 1]);
    }
  }

  /** An idle receiver takes over the count of the first page. */
  lemma {:induction false} FeedBegins(s: State, chunks: seq<ByteBuffer>, j: nat)
    requires 0 < j <= |chunks| < U16 && s.currentNbPages == 0
    ensures Feed(s, Pages(chunks)[..j]) == Feed(State([], s.currentPage, |chunks|), Pages(chunks)[..j])
    decreases j
  {
    hide MakePage;
    var begun := State([], s.currentPage, |chunks|);
    FeedPrefix(s, Pages(chunks), j - 1);
    FeedPrefix(begun, Pages(chunks), j - 1);
    if j > 1 {
      FeedBegins(s, chunks, j - 1);
    } else {
      HeaderOfPage(1, |chunks|, chunks[0]);
    }
  }

  /** What a receiver holds that expects a message of `n` pages: its own count, or none yet. */
  ghost function Begun(s: State, n: nat): State {
    if s.currentNbPages == 0 then State([], s.currentPage, n) else s
  }

  /** All pages of one message, received in any state between two steps: they are all thrown if another count is expected,
      and otherwise complete what was begun. */
  lemma FeedMessage(s: State, chunks: seq<ByteBuffer>)
    requires Between(s) && 0 < |chunks| < U16
    ensures var log := Feed(s, Pages(chunks));
            var b := Begun(s, |chunks|);
            if b.currentNbPages != |chunks| then log.state == s && log.delivered == []
            else b.currentPage < |chunks| && log.state == IDLE && log.delivered == [b.buffer + Flatten(chunks[b.currentPage..])]
  {
    hide MakePage, Receive, Flatten, Feed;
    assert Pages(chunks)[..|chunks|] == Pages(chunks);
    if s.currentNbPages == 0 {
      FeedBegins(s, chunks, |chunks|);
      FeedCompletes(Begun(s, |chunks|), chunks);
    } else if s.currentNbPages == |chunks| {
      FeedCompletes(s, chunks);
    } else {
      FeedThrown(s, chunks, |chunks|);
    }
  }

  // ----- one buffer

  /** The chunks one buffer is sent as, with the truncated page count. */
  ghost function SentChunks(buffer: ByteBuffer, payload: nat): (r: seq<ByteBuffer>)
    requires payload > 0
    ensures |r| == PageCount(|buffer|, payload) % U16
  {
    Chunks(buffer, payload, Truncated(PageCount(|buffer|, payload)))
  }

  /** push returns: its loop over the truncated page count ends. */
  ghost predicate Returns(buffer: ByteBuffer, payload: nat)
    requires payload > 0
  {
    LoopEnds(Truncated(PageCount(|buffer|, payload)))
  }

  /** push returns, and a receiver in state `s` delivers this buffer and nothing else. */
  ghost predicate Arrives(s: State, buffer: ByteBuffer, payload: nat)
    requires payload > 0
  {
    Returns(buffer, payload) && Feed(s, Pages(SentChunks(buffer, payload))).delivered == [buffer]
  }

  /** The receiver expects nothing, or exactly the rest of these chunks. */
  ghost predicate Ready(s: State, chunks: seq<ByteBuffer>) {
    || s.currentNbPages == 0
    || (s.currentNbPages == |chunks| && s.currentPage <= |chunks| && s.buffer == Flatten(chunks[..s.currentPage]))
  }

  /** One buffer, any length, and a receiver in any state between two steps. The sender returns if and only if the page
      count is not 65535 modulo 65536. The buffer arrives if and only if it is neither that nor 0, and the receiver is idle
      or has exactly its first pages. Otherwise nothing is delivered and the receiver stays as it is, or, when it expects
      this very count, the rest of the buffer is appended to what it holds. The pages of a buffer that arrives fit the page
      size exactly when the count needs no truncation. */
  lemma OneBuffer(s: State, buffer: ByteBuffer, payload: nat)
    requires payload > 0 && Between(s)
    ensures var n := PageCount(|buffer|, payload);
            var chunks := SentChunks(buffer, payload);
            var log := Feed(s, Pages(chunks));
            && (Returns(buffer, payload) <==> n % U16 != U16 - 1)
            && (Arrives(s, buffer, payload) <==> n % U16 != 0 && n % U16 != U16 - 1 && Ready(s, chunks))
            && (Arrives(s, buffer, payload) ==> log.state == IDLE)
            && (n % U16 == 0 ==> chunks == [] && log.state == s && log.delivered == [])
            && (s.currentNbPages != 0 && s.currentNbPages != n % U16 ==> log.state == s && log.delivered == [])
            && (s.currentNbPages != 0 && s.currentNbPages == n % U16 ==>
                  s.currentPage < |chunks| && log.state == IDLE && log.delivered == [s.buffer + Flatten(chunks[s.currentPage..])])
            && (Arrives(s, buffer, payload) ==> (AllFit(chunks, payload) <==> n < U16))
  {
    hide Pages, SentChunks, Feed, LoopEnds, PageCount, Flatten;
    LoopEndsIff(Truncated(PageCount(|buffer|, payload)));
    var chunks := SentChunks(buffer, payload);
    if chunks == [] {
      FeedNothing(s);
    } else {
      FeedMessage(s, chunks);
      ChunksOfBuffer(buffer, payload);
      WholeMessage(chunks);
      if s.currentNbPages == |chunks| { CompletesIff(s.buffer, chunks, s.currentPage); }
    }
  }

  lemma FeedNothing(s: State)
    ensures Feed(s, Pages([])).delivered == [] && Feed(s, Pages([])).state == s && Feed(s, []).delivered == []
  {
  }

  lemma ChunksOfBuffer(buffer: ByteBuffer, payload: nat)
    requires payload > 0 && PageCount(|buffer|, payload) % U16 != 0
    ensures Flatten(SentChunks(buffer, payload)) == buffer
    ensures AllFit(SentChunks(buffer, payload), payload) <==> PageCount(|buffer|, payload) < U16
  {
    hide Flatten, Chunks, AllFit;
    var n := PageCount(|buffer|, payload) % U16;
    ChunksJoin(buffer, payload, n);
    ChunksFitIff(buffer, payload, n);
  }

  lemma WholeMessage(chunks: seq<ByteBuffer>)
    ensures chunks[0..] == chunks && [] + Flatten(chunks[0..]) == Flatten(chunks)
  {
  }

  lemma CompletesIff(held: ByteBuffer, chunks: seq<ByteBuffer>, k: nat)
    requires k <= |chunks|
    ensures held + Flatten(chunks[k..]) == Flatten(chunks) <==> held == Flatten(chunks[..k])
  {
    var rest := Flatten(chunks[k..]);
    FlattenAppend(chunks[..k], chunks[k..]);
    assert chunks == chunks[..k] + chunks[k..];
    if held + rest == Flatten(chunks) {
      assert |held| == |Flatten(chunks[..k])|;
      assert (held + rest)[..|held|] == held && (Flatten(chunks[..k]) + rest)[..|held|] == Flatten(chunks[..k]);
    }
  }

  // ----- lists of buffers

  ghost function AllPages(buffers: seq<ByteBuffer>, payload: nat): seq<ByteBuffer>
    requires payload > 0
  {
    if buffers == [] then [] else Pages(SentChunks(buffers[0], payload)) + AllPages(buffers[1..], payload)
  }

  /** The buffers of which at least one page is sent. */
  ghost function Sent(buffers: seq<ByteBuffer>, payload: nat): (r: seq<ByteBuffer>)
    requires payload > 0
    ensures |r| <= |buffers|
  {
    if buffers == [] then []
    else if PageCount(|buffers[0]|, payload) % U16 == 0 then Sent(buffers[1..], payload)
    else [buffers[0]] + Sent(buffers[1..], payload)
  }

  /** Every push of the list returns. */
  ghost predicate AllReturn(buffers: seq<ByteBuffer>, payload: nat)
    requires payload > 0
  {
    forall k :: 0 <= k < |buffers| ==> Returns(buffers[k], payload)
  }

  lemma MessageThenRest(s: State, buffer: ByteBuffer, rest: seq<ByteBuffer>, payload: nat)
    requires payload > 0
    ensures var first := Feed(s, Pages(SentChunks(buffer, payload)));
            var log := Feed(s, Pages(SentChunks(buffer, payload)) + rest);
            && log.delivered == first.delivered + Feed(first.state, rest).delivered
            && log.state == Feed(first.state, rest).state
  {
    hide Feed, Pages;
    FeedJoin(s, Pages(SentChunks(buffer, payload)), rest);
  }

  /** Buffers sent one after the other to an idle receiver, any lengths, as long as each push returns: those with a page
      are delivered unchanged and in order, and the receiver is idle again. */
  lemma {:induction false} StreamOfBuffers(buffers: seq<ByteBuffer>, payload: nat)
    requires payload > 0 && AllReturn(buffers, payload)
    ensures Feed(IDLE, AllPages(buffers, payload)).delivered == Sent(buffers, payload)
    ensures Feed(IDLE, AllPages(buffers, payload)).state == IDLE
    decreases |buffers|
  {
    hide Feed, Returns, Pages, SentChunks, PageCount, Flatten;
    if buffers == [] {
      FeedNothing(IDLE);
      FeedEmpty(IDLE);
    } else {
      StreamOfBuffers(buffers[1..], payload);
      OneBuffer(IDLE, buffers[0], payload);
      MessageThenRest(IDLE, buffers[0], AllPages(buffers[1..], payload), payload);
    }
  }

  lemma FeedEmpty(s: State)
    ensures Feed(s, []).state == s && Feed(s, []).delivered == []
  {
  }

  /** In no state does a receiver deliver more buffers than were sent with a page. */
  lemma {:induction false} DeliversNoMore(s: State, buffers: seq<ByteBuffer>, payload: nat)
    requires payload > 0 && Between(s) && AllReturn(buffers, payload)
    ensures |Feed(s, AllPages(buffers, payload)).delivered| <= |Sent(buffers, payload)|
    decreases |buffers|
  {
    hide Feed, Returns, Pages, SentChunks, PageCount, Flatten;
    if buffers == [] {
      FeedEmpty(s);
    } else {
      OneBuffer(s, buffers[0], payload);
      var first := Feed(s, Pages(SentChunks(buffers[0], payload)));
      MessageThenRest(s, buffers[0], AllPages(buffers[1..], payload), payload);
      DeliversNoMore(first.state, buffers[1..], payload);
    }
  }

  /** A receiver that expects a count which no buffer has delivers nothing, however many are sent. */
  lemma {:induction false} StaysStuck(s: State, buffers: seq<ByteBuffer>, payload: nat)
    requires payload > 0 && Between(s) && s.currentNbPages != 0 && AllReturn(buffers, payload)
    requires forall k :: 0 <= k < |buffers| ==> PageCount(|buffers[k]|, payload) % U16 != s.currentNbPages
    ensures Feed(s, AllPages(buffers, payload)).state == s && Feed(s, AllPages(buffers, payload)).delivered == []
    decreases |buffers|
  {
    hide Feed, Returns, Pages, SentChunks, PageCount, Flatten;
    if buffers == [] {
      FeedEmpty(s);
    } else {
      OneBuffer(s, buffers[0], payload);
      MessageThenRest(s, buffers[0], AllPages(buffers[1..], payload), payload);
      StaysStuck(s, buffers[1..], payload);
    }
  }

  /** No page count of the list is 0 or 65535 modulo 65536. */
  ghost predicate CountsOk(buffers: seq<ByteBuffer>, payload: nat)
    requires payload > 0
  {
    forall k :: 0 <= k < |buffers| ==>
      PageCount(|buffers[k]|, payload) % U16 != 0 && PageCount(|buffers[k]|, payload) % U16 != U16 - 1
  }

  /** Round trip, exactly, to a receiver in any state: every push returns and the buffers are delivered, all of them
      unchanged and in order, if and only if no page count is 0 or 65535 modulo 65536 and the receiver is ready for the
      first of them. */
  lemma RoundTrip(s: State, buffers: seq<ByteBuffer>, payload: nat)
    requires payload > 0 && Between(s)
    ensures (AllReturn(buffers, payload) && Feed(s, AllPages(buffers, payload)).delivered == buffers)
       <==> CountsOk(buffers, payload) && (buffers == [] || Ready(s, SentChunks(buffers[0], payload)))
  {
    hide Feed, Returns, Pages, SentChunks, PageCount, Flatten, AllPages, Ready, Arrives;
    CountsOkIff(buffers, payload);
    if AllReturn(buffers, payload) {
      if buffers == [] {
        NoPages(s, payload);
      } else {
        FirstArrives(s, buffers, payload);
      }
    }
  }

  lemma NoPages(s: State, payload: nat)
    requires payload > 0
    ensures Feed(s, AllPages([], payload)).delivered == []
  {
  }

  lemma CountsOkIff(buffers: seq<ByteBuffer>, payload: nat)
    requires payload > 0
    ensures CountsOk(buffers, payload) <==> AllReturn(buffers, payload) && |Sent(buffers, payload)| == |buffers|
    ensures CountsOk(buffers, payload) ==> Sent(buffers, payload) == buffers
  {
    hide Returns, PageCount, Sent;
    forall k | 0 <= k < |buffers|
      ensures Returns(buffers[k], payload) <==> PageCount(|buffers[k]|, payload) % U16 != U16 - 1
    {
      OneBuffer(IDLE, buffers[k], payload);
    }
    AllSentIff(buffers, payload);
  }

  lemma FirstArrives(s: State, buffers: seq<ByteBuffer>, payload: nat)
    requires payload > 0 && Between(s) && buffers != [] && AllReturn(buffers, payload)
    ensures Feed(s, AllPages(buffers, payload)).delivered == buffers
       <==> CountsOk(buffers, payload) && Ready(s, SentChunks(buffers[0], payload))
  {
    hide Feed, Returns, Pages, SentChunks, PageCount, Flatten, CountsOk;
    var rest := buffers[1..];
    var first := Feed(s, Pages(SentChunks(buffers[0], payload)));
    assert Returns(buffers[0], payload);
    CountsOkIff(buffers, payload);
    OneBuffer(s, buffers[0], payload);
    MessageThenRest(s, buffers[0], AllPages(rest, payload), payload);
    DeliversNoMore(first.state, rest, payload);
    DeliversNoMore(s, buffers, payload);
    assert buffers == [buffers[0]] + rest;
    if CountsOk(buffers, payload) { FirstOfList(buffers, payload); }
    StreamOfBuffers(rest, payload);
    CountsOkIff(rest, payload);
    if Feed(s, AllPages(buffers, payload)).delivered == buffers {
      var later := Feed(first.state, AllPages(rest, payload)).delivered;
      assert |first.delivered + later| == |first.delivered| + |later| && |later| <= |rest| < |buffers|;
      assert (first.delivered + later)[0] == first.delivered[0];
    }
  }

  lemma FirstOfList(buffers: seq<ByteBuffer>, payload: nat)
    requires payload > 0 && buffers != [] && CountsOk(buffers, payload)
    ensures PageCount(|buffers[0]|, payload) % U16 != 0 && PageCount(|buffers[0]|, payload) % U16 != U16 - 1
    ensures CountsOk(buffers[1..], payload)
  {
  }

  lemma {:induction false} AllSentIff(buffers: seq<ByteBuffer>, payload: nat)
    requires payload > 0
    ensures |Sent(buffers, payload)| == |buffers|
       <==> forall k :: 0 <= k < |buffers| ==> PageCount(|buffers[k]|, payload) % U16 != 0
    ensures |Sent(buffers, payload)| == |buffers| ==> Sent(buffers, payload) == buffers
    decreases |buffers|
  {
    hide PageCount;
    if buffers != [] {
      AllSentIff(buffers[1..], payload);
      assert buffers == [buffers[0]] + buffers[1..];
      assert forall k :: 0 <= k < |buffers[1..]| ==> buffers[1..][k] == buffers[k + 1];
      if forall k :: 0 <= k < |buffers| ==> PageCount(|buffers[k]|, payload) % U16 != 0 {
        forall k | 0 <= k < |buffers[1..]|
          ensures PageCount(|buffers[1..][k]|, payload) % U16 != 0
        {
          assert buffers[1..][k] == buffers[k + 1];
        }
      }
    }
  }

  ghost predicate Sendable(buffer: ByteBuffer, payload: nat)
    requires payload > 0
  {
    buffer != [] && PageCount(|buffer|, payload) < U16 - 1
  }

  /** A non-empty buffer of at most 65534 pages takes ceil(length / payload) pages, and no page is larger than the
      page size. */
  lemma PagesFit(buffer: ByteBuffer, pageSize: nat)
    requires pageSize > HEADER_SIZE && Sendable(buffer, pageSize - HEADER_SIZE)
    ensures var pages := Pages(SentChunks(buffer, pageSize - HEADER_SIZE));
            && |pages| == PageCount(|buffer|, pageSize - HEADER_SIZE) > 0
            && forall k :: 0 <= k < |pages| ==> |pages[k]| <= pageSize
  {
    hide MakePage;
    NonEmptyHasPages(|buffer|, pageSize - HEADER_SIZE);
    OneBuffer(IDLE, buffer, pageSize - HEADER_SIZE);
  }

  lemma NonEmptyHasPages(length: nat, payload: nat)
    requires payload > 0 && length > 0
    ensures PageCount(length, payload) > 0
  {
  }
}
