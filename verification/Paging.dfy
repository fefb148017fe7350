/** Paged transport: src/lib/osData/src/PagedDataExchange.cpp. A buffer is cut into pages that carry their
    number and the number of pages, both 16 bits wide, and a receiver puts them together again. */
module Paging {
  import opened Sequences

  newtype Byte = x: int | 0 <= x < 256

  type ByteBuffer = seq<Byte>

  const HEADER_SIZE: nat := 4
  const U16: nat := 0x1_0000

  // ----- header

  /** A pagecount_type in memory, low byte first. */
  function EncodeU16(n: nat): (r: ByteBuffer)
    requires n < U16
    ensures |r| == 2
  {
    [(n % 256) as Byte, (n / 256) as Byte]
  }

  function DecodeU16(b: ByteBuffer): (r: nat)
    requires |b| >= 2
    ensures r < U16
  {
    b[0] as nat + 256 * (b[1] as nat)
  }

  function MakePage(page: nat, nbPages: nat, payload: ByteBuffer): (r: ByteBuffer)
    requires page < U16 && nbPages < U16
    ensures |r| == HEADER_SIZE + |payload|
  {
    EncodeU16(page) + EncodeU16(nbPages) + payload
  }

  function PageNumber(b: ByteBuffer): nat
    requires |b| >= HEADER_SIZE
  {
    DecodeU16(b)
  }

  function PageTotal(b: ByteBuffer): nat
    requires |b| >= HEADER_SIZE
  {
    DecodeU16(b[2..])
  }

  function Payload(b: ByteBuffer): ByteBuffer
    requires |b| >= HEADER_SIZE
  {
    b[HEADER_SIZE..]
  }

  /** Four bytes precede the payload: the number of the page, then the number of pages, each with the low byte first; the
      receiver reads them back. */
  lemma HeaderOfPage(page: nat, nbPages: nat, payload: ByteBuffer)
    requires page < U16 && nbPages < U16
    ensures var b := MakePage(page, nbPages, payload);
            && page == b[0] as int + 256 * (b[1] as int) && nbPages == b[2] as int + 256 * (b[3] as int) && b[4..] == payload
            && PageNumber(b) == page && PageTotal(b) == nbPages && Payload(b) == payload
  {
  }

  // ----- sending

  /** The number of pages before it is cast to 16 bits. */
  function PageCount(length: nat, payload: nat): nat
    requires payload > 0
  {
    length / payload + if length % payload == 0 then 0 else 1
  }

  function Truncated(n: nat): nat {
    n % U16
  }

  lemma MultipleAtLeast(p: nat, k: int)
    requires k >= 1
    ensures p * k >= p
  {
  }

  /** Quotient and remainder are unique. */
  lemma DivModUnique(a: nat, p: nat, q: nat, r: nat)
    requires p > 0 && r < p && a == p * q + r
    ensures a / p == q && a % p == r
  {
    var q', r' := a / p, a % p;
    assert p * (q' - q) == r - r';
    if q' > q {
      MultipleAtLeast(p, q' - q);
    } else if q' < q {
      assert p * (q - q') == -(p * (q' - q));
      MultipleAtLeast(p, q - q');
    }
  }

  lemma PageCountStep(length: nat, payload: nat)
    requires payload > 0 && length >= payload
    ensures PageCount(length - payload, payload) + 1 == PageCount(length, payload)
  {
    var q, r := (length - payload) / payload, (length - payload) % payload;
    assert payload * (q + 1) == payload * q + payload;
    DivModUnique(length, payload, q + 1, r);
  }

  /** The payloads of `n` pages: full ones, and the last takes whatever is left. */
  ghost function Chunks(buffer: ByteBuffer, payload: nat, n: nat): (r: seq<ByteBuffer>)
    requires payload > 0 && n <= PageCount(|buffer|, payload)
    ensures |r| == n
    decreases n
  {
    if n == 0 then []
    else if n == 1 then [buffer]
    else
      LongEnough(|buffer|, payload);
      PageCountStep(|buffer|, payload);
      [buffer[..payload]] + Chunks(buffer[payload..], payload, n - 1)
  }

  /** Where the payload of a page lies in the buffer. */
  lemma {:induction false} ChunkAt(buffer: ByteBuffer, payload: nat, n: nat, k: nat)
    requires payload > 0 && k < n <= PageCount(|buffer|, payload)
    ensures 0 <= k * payload <= |buffer|
    ensures k + 1 < n ==> k * payload <= (k + 1) * payload <= |buffer|
                          && Chunks(buffer, payload, n)[k] == buffer[k * payload..(k + 1) * payload]
    ensures k + 1 == n ==> Chunks(buffer, payload, n)[k] == buffer[k * payload..]
    decreases k
  {
    if n > 1 {
      LongEnough(|buffer|, payload);
      PageCountStep(|buffer|, payload);
    }
    if k == 0 {
      assert 0 * payload == 0 && 1 * payload == payload;
    } else {
      ChunkAt(buffer[payload..], payload, n - 1, k - 1);
      assert k * payload == (k - 1) * payload + payload && (k + 1) * payload == k * payload + payload;
    }
  }

  lemma LongEnough(length: nat, payload: nat)
    requires payload > 0 && PageCount(length, payload) > 1
    ensures length > payload
  {
  }

  lemma {:induction false} ChunksJoin(buffer: ByteBuffer, payload: nat, n: nat)
    requires payload > 0 && 0 < n <= PageCount(|buffer|, payload)
    ensures Flatten(Chunks(buffer, payload, n)) == buffer
    decreases n
  {
    if n == 1 {
      assert Flatten([buffer]) == buffer + Flatten([buffer][1..]);
    } else {
      LongEnough(|buffer|, payload);
      PageCountStep(|buffer|, payload);
      ChunksJoin(buffer[payload..], payload, n - 1);
      assert buffer == buffer[..payload] + buffer[payload..];
    }
  }

  ghost predicate AllFit(chunks: seq<ByteBuffer>, payload: nat) {
    forall k :: 0 <= k < |chunks| ==> |chunks[k]| <= payload
  }

  lemma FitsConsIff(c: ByteBuffer, cs: seq<ByteBuffer>, payload: nat)
    ensures AllFit([c] + cs, payload) <==> |c| <= payload && AllFit(cs, payload)
  {
    if AllFit([c] + cs, payload) {
      assert |([c] + cs)[0]| <= payload;
      forall k | 0 <= k < |cs|
        ensures |cs[k]| <= payload
      {
        assert ([c] + cs)[k + 1] == cs[k];
      }
    }
  }

  /** Every chunk fits into a page if and only if the page count was not truncated. */
  lemma {:induction false} ChunksFitIff(buffer: ByteBuffer, payload: nat, n: nat)
    requires payload > 0 && 0 < n <= PageCount(|buffer|, payload)
    ensures AllFit(Chunks(buffer, payload, n), payload) <==> n == PageCount(|buffer|, payload)
    decreases n
  {
    var cs := Chunks(buffer, payload, n);
    if n == 1 {
      assert cs[0] == buffer;
      OnePageIff(|buffer|, payload);
    } else {
      LongEnough(|buffer|, payload);
      PageCountStep(|buffer|, payload);
      ChunksFitIff(buffer[payload..], payload, n - 1);
      FitsConsIff(cs[0], cs[1..], payload);
    }
  }

  lemma OnePageIff(length: nat, payload: nat)
    requires payload > 0 && PageCount(length, payload) > 0
    ensures length <= payload <==> PageCount(length, payload) == 1
  {
  }

  /** The pages put on the wire. */
  ghost function Pages(chunks: seq<ByteBuffer>): (r: seq<ByteBuffer>)
    requires |chunks| < U16
    ensures |r| == |chunks|
    ensures forall k :: 0 <= k < |r| ==> r[k] == MakePage(k + 1, |chunks|, chunks[k])
  {
    seq(|chunks|, k requires 0 <= k < |chunks| => MakePage(k + 1, |chunks|, chunks[k]))
  }

  /** ++page on a 16-bit counter. */
  function NextPage(page: nat): nat {
    (page + 1) % U16
  }

  lemma NextPageBelow(page: nat)
    requires page < U16 - 1
    ensures NextPage(page) == page + 1
  {
  }

  ghost function PageAfter(rounds: nat): nat {
    if rounds == 0 then 1 else NextPage(PageAfter(rounds - 1))
  }

  /** The counter after so many rounds, wrapped around to 16 bits. */
  lemma {:induction false} PageAfterRounds(rounds: nat)
    ensures PageAfter(rounds) == (rounds + 1) % U16
  {
    if rounds > 0 { PageAfterRounds(rounds - 1); }
  }

  /** The loop `page <= nbPages` ends. */
  ghost predicate LoopEnds(nbPages: nat) {
    exists rounds: nat :: PageAfter(rounds) > nbPages
  }

  /** It does for every page count but 65535. */
  lemma LoopEndsIff(nbPages: nat)
    requires nbPages < U16
    ensures LoopEnds(nbPages) <==> nbPages != U16 - 1
  {
    if nbPages == U16 - 1 {
      forall rounds: nat
        ensures PageAfter(rounds) <= nbPages
      {
        PageAfterRounds(rounds);
      }
    } else {
      PageAfterRounds(nbPages);
    }
  }

  datatype Pushed = BadPageSize | Sent(pages: seq<ByteBuffer>)

  /** PagedDataExchange::push. The loop counter is 16 bits wide, so a truncated count of 65535 never ends the
      loop; the precondition excludes it. */
  method Push(pageSize: nat, buffer: ByteBuffer) returns (r: Pushed)
    requires pageSize > HEADER_SIZE ==> Truncated(PageCount(|buffer|, pageSize - HEADER_SIZE)) != U16 - 1
    ensures r.BadPageSize? <==> pageSize <= HEADER_SIZE
    ensures pageSize > HEADER_SIZE ==>
              var payload := pageSize - HEADER_SIZE;
              var n := Truncated(PageCount(|buffer|, payload));
              r == Sent(Pages(Chunks(buffer, payload, n)))
  {
    if pageSize <= HEADER_SIZE {
      return BadPageSize;
    }
    var payload := pageSize - HEADER_SIZE;
    var nbPages := (|buffer| / payload + if |buffer| % payload == 0 then 0 else 1) % U16;
    assert nbPages == Truncated(PageCount(|buffer|, payload));
    hide PageCount, MakePage, Chunks, NextPage;
    var pages := [];
    ghost var all := Chunks(buffer, payload, nbPages);
    var page: nat := 1;
    while page <= nbPages
      invariant 1 <= page <= nbPages + 1 && |pages| == page - 1
      invariant forall k :: 0 <= k < page - 1 ==> pages[k] == MakePage(k + 1, nbPages, all[k])
    {
      ChunkAt(buffer, payload, nbPages, page - 1);
      if page < nbPages {
        pages := pages + [MakePage(page, nbPages, buffer[(page - 1) * payload..page * payload])];
      } else {
        pages := pages + [MakePage(page, nbPages, buffer[(page - 1) * payload..])];
      }
      NextPageBelow(page);
      page := NextPage(page);
    }
    assert pages == Pages(all);
    r := Sent(pages);
  }
}
