/** The sizes that the code buffer is cut into. */
module TcgSizes {
  import opened Arithmetic
  import opened Wrappers
  import opened TcgRegion

  /** One thread has one region. With more, no region is below two megabytes unless there is just one for each thread,
      and there are more of them only while that holds, up to eight for each thread. */
  lemma RegionCount(tbSize: nat, maxThreads: nat)
    requires maxThreads >= 1 && maxThreads * 8 < 0x1_0000_0000
    ensures var n := NRegions(tbSize, maxThreads);
            && (maxThreads == 1 ==> n == 1)
            && (maxThreads > 1 ==>
                  && maxThreads <= n <= 8 * maxThreads
                  && (n > maxThreads ==> n * 0x20_0000 <= tbSize)
                  && (n < 8 * maxThreads ==> tbSize < (n + 1) * 0x20_0000))
  {
  }

  /** A region is the largest number of pages that fits n times, the last of them a guard page; there is a layout
      exactly when that leaves a page for code. */
  lemma LayoutExactly(start: nat, diff: nat, tbSize: nat, page: nat, maxThreads: nat, pages: nat)
    requires page > 0 && NRegions(tbSize, maxThreads) > 0
    requires var n := NRegions(tbSize, maxThreads);
             Times(n, Times(pages, page)) <= tbSize < Times(n, Times(pages + 1, page))
    ensures var made := InitLayout(start, diff, tbSize, page, maxThreads);
            && (made.Some? <==> pages >= 2)
            && (made.Some? ==>
                  var c := made.value;
                  && c.start == c.after == start && c.diff == diff && c.n == NRegions(tbSize, maxThreads)
                  && c.stride == Times(pages, page) == c.size + page && c.total == tbSize - page)
  {
    hide Times, Quot, NRegions;
    var n := NRegions(tbSize, maxThreads);
    LargestShare(tbSize, n, page, pages);
    TimesLaws(pages, page, 0);
    if pages >= 2 {
      PagesOrder(n, page, pages);
    } else {
      TimesMonoLeft(pages, 1, page);
      TimesOne(page);
    }
  }

  lemma TimesOne(n: nat)
    ensures Times(1, n) == n
  {
  }

  lemma PagesOrder(n: nat, page: nat, pages: nat)
    requires pages >= 2 && n >= 1
    ensures 2 * page <= Times(pages, page) <= Times(n, Times(pages, page))
  {
    TimesMonoLeft(2, pages, page);
    TimesMonoLeft(1, n, Times(pages, page));
  }

  lemma LargestShare(tbSize: nat, n: nat, page: nat, pages: nat)
    requires n > 0 && page > 0
    requires Times(n, Times(pages, page)) <= tbSize < Times(n, Times(pages + 1, page))
    ensures Quot(Quot(tbSize, n), page) == pages
  {
    hide Times, Quot, Rem;
    var share := Quot(tbSize, n);
    QuotRem(tbSize, n);
    if share < Times(pages, page) {
      TimesOrder(share, Times(pages, page), n);
    }
    if share >= Times(pages + 1, page) {
      TimesMono(n, Times(pages + 1, page), share);
    }
    TimesStep(pages, page);
    TimesLaws(pages, page, 0);
    QuotRemUnique(share, page, pages, share - Times(pages, page));
  }
}
