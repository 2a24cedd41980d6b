/** LIMIT/OFFSET pagination with clamped arguments. */
module Pagination {
  datatype Page<T> = Page(items: seq<T>, total: nat, page: int, pageSize: int, pages: int)

  function Max(a: int, b: int): int { if a >= b then a else b }

  function Min(a: int, b: int): int { if a <= b then a else b }

  /** SELECT ... LIMIT limit OFFSET offset */
  function Slice<T>(rows: seq<T>, limit: nat, offset: nat): seq<T> {
    rows[Min(offset, |rows|)..Min(offset + limit, |rows|)]
  }

  function Paginate<T>(rows: seq<T>, page: int, pageSize: int): Page<T> {
    var p := Max(1, page);
    var size := Min(Max(1, pageSize), 200);
    OffsetIsNatural(p, size);
    Page(Slice(rows, size, (p - 1) * size), |rows|, p, size, (|rows| + size - 1) / size)
  }

  lemma OffsetIsNatural(p: int, size: int)
    requires p >= 1 && size >= 1
    ensures (p - 1) * size >= 0
  {
  }

  lemma PageCount(total: nat, size: nat)
    requires size >= 1
    ensures var pages := (total + size - 1) / size;
            total <= pages * size && (total > 0 ==> (pages - 1) * size < total)
  {
    var pages := (total + size - 1) / size;
    assert pages * size <= total + size - 1 < (pages + 1) * size;
  }

  /** The items of pages 1..n, one after the other. */
  function FirstPages<T>(rows: seq<T>, n: nat, pageSize: int): seq<T> {
    if n == 0 then [] else FirstPages(rows, n - 1, pageSize) + Paginate(rows, n, pageSize).items
  }

  lemma NextOffset(n: int, size: int)
    ensures (n - 1) * size + size == n * size
  {
  }

  lemma PrefixGrows<T>(rows: seq<T>, size: nat, from: nat, to: nat)
    requires to == from + size
    ensures rows[..Min(from, |rows|)] + Slice(rows, size, from) == rows[..Min(to, |rows|)]
  {
  }

  lemma {:induction false} FirstPagesArePrefix<T>(rows: seq<T>, n: nat, pageSize: int)
    ensures var size := Min(Max(1, pageSize), 200);
            n * size >= 0 && FirstPages(rows, n, pageSize) == rows[..Min(n * size, |rows|)]
  {
    var size := Min(Max(1, pageSize), 200);
    if n > 0 {
      FirstPagesArePrefix(rows, n - 1, pageSize);
      OffsetIsNatural(n, size);
      NextOffset(n, size);
      PrefixGrows(rows, size, (n - 1) * size, n * size);
    }
  }

  function PageSize(pageSize: int): nat { Min(Max(1, pageSize), 200) }

  lemma PastTheLast<T>(rows: seq<T>, p: int, pageSize: int)
    requires p > Paginate(rows, 1, pageSize).pages
    ensures Paginate(rows, p, pageSize).items == []
  {
    var size, pages := PageSize(pageSize), Paginate(rows, 1, pageSize).pages;
    PageCount(|rows|, size);
    OffsetGrows(Max(1, p), pages, size);
  }

  lemma {:induction false} OffsetGrows(p: int, pages: int, size: nat)
    requires p > pages
    ensures (p - 1) * size >= pages * size
    decreases p - pages
  {
    if p - 1 > pages {
      OffsetGrows(p - 1, pages, size);
      NextOffset(p - 1, size);
    }
  }

  /** `pages` is the least number of pages of the clamped size that holds all items. */
  lemma PagesAreEnough<T>(rows: seq<T>, pageSize: int)
    ensures var page := Paginate(rows, 1, pageSize);
            && 1 <= page.pageSize <= 200 && page.pages >= 0
            && page.total == |rows| <= page.pages * page.pageSize
            && (|rows| > 0 ==> (page.pages - 1) * page.pageSize < |rows|)
  {
    PageCount(|rows|, PageSize(pageSize));
  }

  /** Main result: pages 1..`pages`, one after the other, are the whole list; nothing is lost or repeated. */
  lemma PagesPartition<T>(rows: seq<T>, pageSize: int)
    ensures Paginate(rows, 1, pageSize).pages >= 0
    ensures FirstPages(rows, Paginate(rows, 1, pageSize).pages, pageSize) == rows
  {
    PageCount(|rows|, PageSize(pageSize));
    FirstPagesArePrefix(rows, Paginate(rows, 1, pageSize).pages, pageSize);
  }

  /** A page request as it is served: pages count from 1, and the size is held between 1 and 200. */
  ghost predicate Served(page: int, pageSize: int, p: int, size: int) {
    && p >= 1 && (page >= 1 ==> p == page) && (page < 1 ==> p == 1)
    && 1 <= size <= 200 && (1 <= pageSize <= 200 ==> size == pageSize)
    && (pageSize < 1 ==> size == 1) && (pageSize > 200 ==> size == 200)
  }

  /** A page holds the rows from (page - 1) * size on, as many as fit, and says which page of what size it is. */
  lemma PageIs<T>(rows: seq<T>, page: int, pageSize: int)
    ensures var r := Paginate(rows, page, pageSize);
            var from := (r.page - 1) * r.pageSize;
            && Served(page, pageSize, r.page, r.pageSize) && from >= 0 && r.total == |rows|
            && (|r.items| == r.pageSize || |rows| <= from + |r.items|) && |r.items| <= r.pageSize
            && (from >= |rows| ==> r.items == [])
            && (from < |rows| ==> from + |r.items| <= |rows| && r.items == rows[from..from + |r.items|])
  {
    OffsetIsNatural(Max(1, page), PageSize(pageSize));
    SliceIs(rows, PageSize(pageSize), (Max(1, page) - 1) * PageSize(pageSize));
  }

  lemma SliceIs<T>(rows: seq<T>, limit: nat, offset: nat)
    ensures var items := Slice(rows, limit, offset);
            && |items| <= limit && (|items| == limit || |rows| <= offset + |items|)
            && (offset >= |rows| ==> items == [])
            && (offset < |rows| ==> offset + |items| <= |rows| && items == rows[offset..offset + |items|])
  {
  }
}
