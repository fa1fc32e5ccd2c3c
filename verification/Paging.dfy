/** Reading a whole result page by page, and the page arithmetic of the list endpoints. */
module Paging {
  import opened Wrappers
  import opened RateLimiter

  // ── listAll ───────────────────────────────────────────────────────────────

  /** The rows a server with page cap `cap` returns for a limit and an offset. */
  function Page<T>(rows: seq<T>, offset: nat, limit: nat, cap: nat): (page: seq<T>) {
    if offset >= |rows| then [] else rows[offset..Min(|rows|, offset + Min(limit, cap))]
  }

  /** A stable query result as the data API serves it, behind the rate limiter; `calls` counts the list calls. */
  class Query<T> {
    const rows: seq<T>
    const cap: nat
    const limiter: Limiter
    var calls: nat

    constructor (rows: seq<T>, cap: nat, limiter: Limiter)
      ensures this.rows == rows && this.cap == cap && this.limiter == limiter && calls == 0
    {
      this.rows := rows;
      this.cap := cap;
      this.limiter := limiter;
      calls := 0;
    }

    /** One list call, made at any time: it waits for its slot and reads one page. */
    method List(limit: nat, offset: nat) returns (page: seq<T>)
      modifies this, limiter
      ensures page == Page(rows, offset, limit, cap)
      ensures calls == old(calls) + 1
      ensures limiter.granted == old(limiter.granted) + 1
      ensures limiter.nextAllowedTime >= old(limiter.nextAllowedTime) + 200
    {
      calls := calls + 1;
      var now: nat := *;
      var _ := limiter.Enforce(now);
      page := Page(rows, offset, limit, cap);
    }

    /**
     All matching records, page by page, with exactly one limiter slot a call.
     What the pages add up to is the matter of `ReadAllComplete`.
     */
    method ListAll(pageSize: nat) returns (records: seq<T>)
      requires pageSize >= 1
      modifies this, limiter
      ensures calls >= old(calls) && Pages(records, calls - old(calls)) == ReadAll(rows, pageSize, cap)
      ensures limiter.granted == old(limiter.granted) + (calls - old(calls))
      ensures TookSlots(old(limiter.nextAllowedTime), limiter.nextAllowedTime, calls - old(calls))
    {
      records := [];
      var offset := 0;
      ghost var made := 0;
      while true
        invariant ReadOn(rows, offset, pageSize, cap, Pages(records, made)) == ReadAll(rows, pageSize, cap)
        invariant calls == old(calls) + made && limiter.granted == old(limiter.granted) + made
        invariant TookSlots(old(limiter.nextAllowedTime), limiter.nextAllowedTime, made)
        decreases |rows| - offset
      {
        ghost var next := limiter.nextAllowedTime;
        var page := List(pageSize, offset);
        TookOneMore(old(limiter.nextAllowedTime), next, limiter.nextAllowedTime, made);
        records := records + page;
        made := made + 1;
        if |page| < pageSize {
          return;
        }
        offset := offset + pageSize;
      }
    }
  }

  /** The limiter has moved on by at least this many slots. */
  predicate TookSlots(before: nat, after: nat, slots: nat) {
    after >= before + slots * 200
  }

  lemma TookOneMore(before: nat, mid: nat, after: nat, slots: nat)
    requires TookSlots(before, mid, slots) && after >= mid + 200
    ensures TookSlots(before, after, slots + 1)
  {
  }

  /** The records read so far, and in how many calls. */
  datatype Pages<T> = Pages(records: seq<T>, calls: nat)

  /** Reads on from an offset until a page is not full. */
  function ReadOn<T>(rows: seq<T>, offset: nat, pageSize: nat, cap: nat, sofar: Pages<T>): Pages<T>
    requires pageSize >= 1
    decreases |rows| - offset
  {
    var page := Page(rows, offset, pageSize, cap);
    var read := Pages(sofar.records + page, sofar.calls + 1);
    if |page| < pageSize then read else ReadOn(rows, offset + pageSize, pageSize, cap, read)
  }

  function ReadAll<T>(rows: seq<T>, pageSize: nat, cap: nat): Pages<T>
    requires pageSize >= 1
  {
    ReadOn(rows, 0, pageSize, cap, Pages([], 0))
  }

  lemma DivStep(n: nat, d: nat)
    requires d >= 1
    ensures n < d ==> n / d == 0
    ensures n >= d ==> n / d == (n - d) / d + 1
  {
    if n >= d {
      assert n == (n - d) + d;
      DivAdd(n - d, d);
    }
  }

  lemma MulMonotone(a: int, b: int, d: nat)
    requires a <= b
    ensures a * d <= b * d
  {
  }

  lemma DivUnique(x: int, d: nat, q: int, r: int)
    requires d >= 1 && x == q * d + r && 0 <= r < d
    ensures x / d == q
  {
    var p, e := x / d, x % d;
    assert x == p * d + e;
    if p < q {
      MulMonotone(p + 1, q, d);
    } else if p > q {
      MulMonotone(q + 1, p, d);
    }
  }

  lemma DivAdd(m: nat, d: nat)
    requires d >= 1
    ensures (m + d) / d == m / d + 1
  {
    var q, r := m / d, m % d;
    assert m == q * d + r;
    assert (q + 1) * d == q * d + d;
    DivUnique(m + d, d, q + 1, r);
  }

  lemma {:induction false} ReadOnComplete<T>(rows: seq<T>, offset: nat, pageSize: nat, cap: nat, sofar: Pages<T>)
    requires pageSize >= 1 && cap >= pageSize && offset <= |rows|
    ensures ReadOn(rows, offset, pageSize, cap, sofar)
            == Pages(sofar.records + rows[offset..], sofar.calls + (|rows| - offset) / pageSize + 1)
    decreases |rows| - offset
  {
    DivStep(|rows| - offset, pageSize);
    var page := Page(rows, offset, pageSize, cap);
    if |page| == pageSize {
      ReadOnComplete(rows, offset + pageSize, pageSize, cap, Pages(sofar.records + page, sofar.calls + 1));
      assert rows[offset..] == page + rows[offset + pageSize..];
      Associate(sofar.records, page, rows[offset + pageSize..]);
    }
  }

  lemma Associate<T>(a: seq<T>, b: seq<T>, c: seq<T>)
    ensures a + (b + c) == (a + b) + c
  {
  }

  /** A server that honours the page size: nothing is missed, in ⌊n/p⌋ + 1 calls. */
  lemma ReadAllComplete<T>(rows: seq<T>, pageSize: nat, cap: nat)
    requires pageSize >= 1 && cap >= pageSize
    ensures ReadAll(rows, pageSize, cap) == Pages(rows, |rows| / pageSize + 1)
  {
    ReadOnComplete(rows, 0, pageSize, cap, Pages([], 0));
    assert [] + rows[0..] == rows;
  }

  /**
   A server that caps pages below the requested size makes the first short page
   look like the last one: the loop is complete exactly when the cap is at least
   the page size or the whole result fits under it.
   */
  lemma ReadAllCompleteIff<T>(rows: seq<T>, pageSize: nat, cap: nat)
    requires pageSize >= 1
    ensures ReadAll(rows, pageSize, cap).records == rows <==> cap >= pageSize || |rows| <= cap
  {
    if cap >= pageSize {
      ReadAllComplete(rows, pageSize, cap);
    } else {
      assert |ReadAll(rows, pageSize, cap).records| == Min(|rows|, cap);
    }
  }

  // ── Page options and page metadata ────────────────────────────────────────

  /** Validated options: both are at least 1 when given. */
  datatype PageOptions = PageOptions(page: Option<nat>, take: Option<nat>) {
    predicate Valid() {
      (page.Some? ==> page.value >= 1) && (take.Some? ==> take.value >= 1)
    }

    function Number(): nat {
      if page.Some? && page.value != 0 then page.value else 1
    }

    function Size(): (s: nat)
      ensures s >= 1
    {
      if take.Some? && take.value != 0 then take.value else 10
    }

    function Skip(): nat {
      (Number() - 1) * Size()
    }
  }

  datatype PageMeta = PageMeta(page: nat, take: nat, itemCount: nat, pageCount: nat, hasPreviousPage: bool,
      hasNextPage: bool)

  function Meta(options: PageOptions, itemCount: nat): PageMeta {
    var page, take := options.Number(), options.Size();
    var pageCount := (itemCount + take - 1) / take;
    PageMeta(page, take, itemCount, pageCount, page > 1, page < pageCount)
  }

  /** Without options, and for a zero that validation would refuse, it is the first page of ten. */
  lemma DefaultPage(options: PageOptions)
    requires (options.page.None? || options.page == Some(0)) && (options.take.None? || options.take == Some(0))
    ensures options.Number() == 1 && options.Size() == 10 && options.Skip() == 0
    ensures forall n: nat ::
              Meta(options, n).page == 1 && Meta(options, n).take == 10 && Meta(options, n).itemCount == n
  {
  }

  /** Given options are taken as they are. */
  lemma GivenPage(page: nat, take: nat, itemCount: nat)
    requires page >= 1 && take >= 1
    ensures var options := PageOptions(Some(page), Some(take));
            && options.Skip() == (page - 1) * take
            && Meta(options, itemCount).page == page && Meta(options, itemCount).take == take
            && Meta(options, itemCount).itemCount == itemCount
  {
  }

  /** Pages 1..n of a list, one after the other. */
  function FirstPages<T>(items: seq<T>, take: nat, n: nat): seq<T>
    requires take >= 1
  {
    if n == 0 then [] else
      FirstPages(items, take, n - 1) + Page(items, PageOptions(Some(n), Some(take)).Skip(), take, take)
  }

  lemma CeilBounds(n: nat, d: nat)
    requires d >= 1
    ensures var c := (n + d - 1) / d; (c - 1) * d < n <= c * d || (n == 0 && c == 0)
  {
    var m := n + d - 1;
    var q, r := m / d, m % d;
    assert m == q * d + r && 0 <= r < d;
    if n == 0 {
      DivStep(d - 1, d);
    } else {
      assert (q - 1) * d == q * d - d;
    }
  }

  lemma PageExtendsPrefix<T>(items: seq<T>, from: nat, take: nat)
    ensures items[..Min(|items|, from)] + Page(items, from, take, take) == items[..Min(|items|, from + take)]
  {
  }

  lemma {:induction false} FirstPagesArePrefix<T>(items: seq<T>, take: nat, n: nat)
    requires take >= 1
    ensures FirstPages(items, take, n) == items[..Min(|items|, n * take)]
  {
    if n > 0 {
      FirstPagesArePrefix(items, take, n - 1);
      var from := (n - 1) * take;
      assert n * take == from + take;
      assert PageOptions(Some(n), Some(take)).Skip() == from;
      PageExtendsPrefix(items, from, take);
    }
  }

  /**
   The pages 1..pageCount partition the list: concatenated they are the whole
   list.
   */
  lemma PagesPartition<T>(items: seq<T>, options: PageOptions)
    requires options.Valid()
    ensures var meta := Meta(options, |items|); FirstPages(items, meta.take, meta.pageCount) == items
  {
    var take := options.Size();
    var count := Meta(options, |items|).pageCount;
    PageArithmetic(|items|, options.Number(), take, count);
    WholeList(items, take, count);
  }

  lemma WholeList<T>(items: seq<T>, take: nat, count: nat)
    requires take >= 1 && |items| <= count * take
    ensures FirstPages(items, take, count) == items
  {
    FirstPagesArePrefix(items, take, count);
    assert items[..|items|] == items;
  }

  /** A page holds rows exactly when its number is at most the page count. */
  lemma PageNonEmptyIff<T>(items: seq<T>, options: PageOptions)
    requires options.Valid()
    ensures Page(items, options.Skip(), options.Size(), options.Size()) != [] <==>
              options.Number() <= Meta(options, |items|).pageCount
  {
    PageArithmetic(|items|, options.Number(), options.Size(), Meta(options, |items|).pageCount);
    assert Page(items, options.Skip(), options.Size(), options.Size()) != [] <==> options.Skip() < |items|;
  }

  /** There is a next page exactly when rows are left behind the current one. */
  lemma NextPageIffRowsLeft(options: PageOptions, itemCount: nat)
    requires options.Valid()
    ensures Meta(options, itemCount).hasNextPage <==> options.Skip() + options.Size() < itemCount
    ensures Meta(options, itemCount).hasPreviousPage <==> options.Skip() > 0
  {
    var take := options.Size();
    PageArithmetic(itemCount, options.Number(), take, (itemCount + take - 1) / take);
  }

  lemma PageArithmetic(n: nat, page: nat, take: nat, count: nat)
    requires page >= 1 && take >= 1 && count == (n + take - 1) / take
    ensures n <= count * take
    ensures (page - 1) * take < n <==> page <= count
    ensures (page - 1) * take + take < n <==> page < count
    ensures page > 1 <==> (page - 1) * take > 0
  {
    CeilBounds(n, take);
    assert (page - 1) * take + take == page * take;
    if page <= count { MulMonotone(page - 1, count - 1, take); } else { MulMonotone(count, page - 1, take); }
    if page < count { MulMonotone(page, count - 1, take); } else { MulMonotone(count, page, take); }
    if page > 1 { MulMonotone(1, page - 1, take); }
  }
}
