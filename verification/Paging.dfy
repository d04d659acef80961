/** Page arithmetic: `paginate`, the page counts of the resolvers, and `calculatePagination` of the HTML pages. */
module Paging {
  import opened Text
  import opened Batching
  import opened MachineInts

  /** A slice this long would not fit into memory. */
  const SLICE_LIMIT: nat := 0x1000_0000_0000_0000

  // ----- arithmetic -----

  lemma MulMono(a: int, b: int, c: int)
    requires a <= b && c >= 0
    ensures a * c <= b * c
  {
    assert (b - a) * c >= 0;
  }

  lemma {:induction false} DivUnique(n: int, q: int, d: int)
    requires d > 0 && q * d <= n < (q + 1) * d
    ensures n / d == q
  {
    var p := n / d;
    assert p * d <= n < p * d + d;
    if p < q {
      MulMono(p + 1, q, d);
    } else if p > q {
      MulMono(q + 1, p, d);
    }
  }

  /** The rounded-up quotient: the last page starts inside the list and ends at or behind its end. */
  lemma {:induction false} CeilBounds(total: nat, size: int)
    requires size >= 1
    ensures var n := (total + size - 1) / size;
            0 <= n <= total && (n - 1) * size < total && total <= n * size
  {
    var n := (total + size - 1) / size;
    assert n * size <= total + size - 1 < n * size + size;
    assert (n - 1) * size == n * size - size;
    if n > total {
      MulMono(total, n - 1, size);
      MulMono(1, size, total);
    }
  }

  /** The rounded-up quotient is the only number of pages that fits. */
  lemma {:induction false} CeilUnique(total: nat, size: int, n: int)
    requires size >= 1 && (n - 1) * size < total <= n * size
    ensures (total + size - 1) / size == n
  {
    assert (n - 1) * size == n * size - size && (n + 1) * size == n * size + size;
    DivUnique(total + size - 1, n, size);
  }

  // ----- pages -----

  /** Page `k` of a list, counted from 1. */
  function Page<T>(items: seq<T>, k: int, size: int): seq<T>
    requires k >= 1 && size >= 1
  {
    var start := (k - 1) * size;
    if start >= |items| then [] else items[start..Min(start + size, |items|)]
  }

  /** The number of pages, at least 1. */
  function TotalPages(total: nat, size: int): (n: int)
    requires size >= 1
    ensures total == 0 ==> n == 1
    ensures total > 0 ==> (n - 1) * size < total <= n * size
  {
    CeilBounds(total, size);
    if (total + size - 1) / size < 1 then 1 else (total + size - 1) / size
  }

  function Pages<T>(items: seq<T>, size: int, n: nat): seq<seq<T>>
    requires size >= 1
  {
    if n == 0 then [] else Pages(items, size, n - 1) + [Page(items, n, size)]
  }

  /** Skipping a full page shifts the page numbers by one. */
  lemma PageShift<T>(items: seq<T>, k: int, size: int)
    requires k >= 2 && 1 <= size <= |items|
    ensures Page(items, k, size) == Page(items[size..], k - 1, size)
  {
    assert (k - 1) * size == (k - 2) * size + size;
    MulMono(0, k - 2, size);
  }

  lemma PageBehind<T>(items: seq<T>, k: int, size: int)
    requires k >= 2 && size >= 1 && |items| <= size
    ensures Page(items, k, size) == []
  {
    MulMono(1, k - 1, size);
  }

  lemma FirstPage<T>(items: seq<T>, size: int)
    requires size >= 1
    ensures Page(items, 1, size) == items[..Min(size, |items|)]
  {
  }

  lemma {:induction false} PageIsChunk<T>(items: seq<T>, k: nat, size: nat)
    requires k >= 1 && size >= 1
    ensures Page(items, k, size) == if k <= |Chunks(items, size)| then Chunks(items, size)[k - 1] else []
    decreases |items|
  {
    if |items| <= size {
      assert items[..|items|] == items && items[|items|..] == [];
      assert Chunks(items, size) == if items == [] then [] else [items];
      if k > 1 {
        PageBehind(items, k, size);
      } else {
        FirstPage(items, size);
      }
    } else {
      hide Page;
      assert Chunks(items, size) == [items[..size]] + Chunks(items[size..], size);
      if k > 1 {
        PageShift(items, k, size);
        PageIsChunk(items[size..], k - 1, size);
      } else {
        FirstPage(items, size);
      }
    }
  }

  lemma {:induction false} CeilStep(total: nat, size: nat)
    requires 1 <= size < total
    ensures (total + size - 1) / size == (total - size + size - 1) / size + 1
  {
    var m := (total - size + size - 1) / size;
    CeilBounds(total - size, size);
    assert (m - 1) * size < total - size <= m * size;
    assert m * size == (m - 1) * size + size && (m + 1) * size == m * size + size;
    CeilUnique(total, size, m + 1);
  }

  lemma CeilSmall(total: nat, size: nat)
    requires total <= size && size >= 1
    ensures (total + size - 1) / size == if total == 0 then 0 else 1
  {
    CeilUnique(total, size, if total == 0 then 0 else 1);
  }

  lemma {:induction false} ChunkCount<T>(items: seq<T>, size: nat)
    requires size >= 1
    ensures |Chunks(items, size)| == (|items| + size - 1) / size
    decreases |items|
  {
    if |items| <= size {
      CeilSmall(|items|, size);
      assert items != [] ==> Chunks(items[|items|..], size) == [];
    } else {
      ChunkCount(items[size..], size);
      CeilStep(|items|, size);
    }
  }

  lemma {:induction false} PagesAreChunks<T>(items: seq<T>, size: nat, n: nat)
    requires size >= 1 && n <= |Chunks(items, size)|
    ensures Pages(items, size, n) == Chunks(items, size)[..n]
    decreases n
  {
    hide Chunks, Page;
    if n > 0 {
      PagesAreChunks(items, size, n - 1);
      PageIsChunk(items, n, size);
    }
  }

  /** Pages 1 to the page count, one after the other, are the list: nothing is missing, repeated or moved. */
  lemma {:induction false} PagesPartition<T>(items: seq<T>, size: nat)
    requires size >= 1
    ensures Flatten(Pages(items, size, TotalPages(|items|, size))) == items
    ensures forall k :: k > TotalPages(|items|, size) ==> Page(items, k, size) == []
  {
    hide Page, Chunks;
    ChunkCount(items, size);
    ChunksPartition(items, size);
    var n := |Chunks(items, size)|;
    if n == 0 {
      assert items == [] by { FlattenNothing(Chunks(items, size)); }
      PageIsChunk(items, 1, size);
      FlattenSnoc([], Page(items, 1, size));
      assert Pages(items, size, 0) == [];
    } else {
      PagesAreChunks(items, size, n);
      assert Chunks(items, size)[..n] == Chunks(items, size);
    }
    forall k | k > TotalPages(|items|, size)
      ensures Page(items, k, size) == []
    {
      PageIsChunk(items, k, size);
    }
  }

  lemma FlattenNothing<T>(cs: seq<seq<T>>)
    requires cs == []
    ensures Flatten(cs) == []
  {
  }

  // ----- GraphQL -----

  /** `paginate`, in 64-bit arithmetic; the arguments come from 32-bit ones. */
  method Paginate<T>(items: seq<T>, currentPage: int, pageSize: int) returns (r: seq<T>)
    requires 1 <= currentPage < INT32_HALF && 1 <= pageSize < INT32_HALF
    ensures r == Page(items, currentPage, pageSize)
  {
    hide Wrap64;
    SmallProduct(currentPage - 1, pageSize);
    Wrap64Id((currentPage - 1) * pageSize);
    Wrap64Id((currentPage - 1) * pageSize + pageSize);
    var start := Wrap64((currentPage - 1) * pageSize);
    var end := Wrap64(start + pageSize);
    if start >= |items| {
      return [];
    }
    if end > |items| {
      end := |items|;
    }
    r := items[start..end];
  }

  lemma {:induction false} SmallProduct(a: int, b: int)
    requires 0 <= a < INT32_HALF && 0 <= b < INT32_HALF
    ensures 0 <= a * b <= INT32_HALF * INT32_HALF
  {
    MulMono(0, a, b);
    MulMono(a, INT32_HALF, b);
  }

  /** The result of a paged query. */
  datatype PageInfo = PageInfo(pageSize: int, currentPage: int, totalPages: int, totalCount: int)

  /**
   The paging of `Products` (default size 20) and `MagentoProducts` (default size 12): the defaults make every
   32-bit argument usable, and no intermediate result leaves the 64-bit range.
   */
  method PagedQuery<T>(items: seq<T>, argSize: int, argPage: int, defaultSize: int)
    returns (page: seq<T>, info: PageInfo)
    requires |items| < SLICE_LIMIT && IsInt32(argSize) && IsInt32(argPage) && 1 <= defaultSize < INT32_HALF
    ensures info.pageSize == (if argSize <= 0 then defaultSize else argSize)
    ensures info.currentPage == (if argPage <= 0 then 1 else argPage)
    ensures page == Page(items, info.currentPage, info.pageSize)
    ensures info.totalPages == Wrap32(TotalPages(|items|, info.pageSize)) && info.totalCount == Wrap32(|items|)
  {
    hide Page, Wrap64, Wrap32;
    var ps := argSize;
    if ps <= 0 {
      ps := defaultSize;
    }
    var cp := argPage;
    if cp <= 0 {
      cp := 1;
    }
    page := Paginate(items, cp, ps);
    Wrap64Id(|items| + ps);
    Wrap64Id(|items| + ps - 1);
    var totalPages := TruncDiv(Wrap64(Wrap64(|items| + ps) - 1), ps);
    if totalPages < 1 {
      totalPages := 1;
    }
    info := PageInfo(ps, cp, Wrap32(totalPages), Wrap32(|items|));
  }

  /** The 32-bit counters of a result are right exactly when the true values fit. */
  lemma CountersExact(n: nat)
    ensures Wrap32(n) == n <==> n < INT32_HALF
  {
  }

  // ----- HTML -----

  datatype PaginationData = PaginationData(page: int, limit: int, totalItems: nat, totalPages: int,
                                           pageNumbers: seq<int>, prevPage: int, nextPage: int)

  const MAX_PAGES_TO_SHOW: int := 5

  /**
   The window of page numbers: contiguous, inside the pages, as long as it may be, with the current page in the middle
   unless that is too close to an end.
   */
  ghost predicate Window(numbers: seq<int>, page: int, totalPages: int) {
    && |numbers| == (if totalPages < 0 then 0 else Min(5, totalPages))
    && (forall i :: 0 <= i < |numbers| ==> numbers[i] == numbers[0] + i)
    && (numbers != [] ==> 1 <= numbers[0] && numbers[|numbers| - 1] <= totalPages)
    && (totalPages >= 1 ==> page in numbers)
    && (totalPages >= 1 ==>
          numbers[0] ==
          if totalPages <= 5 || page <= 3 then 1 else if page + 2 <= totalPages then page - 2 else totalPages - 4)
  }

  /** `calculatePagination`, in 64-bit arithmetic: the limit of a request may be any 64-bit number. */
  method CalculatePagination(limitParam: Option<int>, pageParam: Option<int>, totalItems: nat)
    returns (d: PaginationData)
    requires totalItems < SLICE_LIMIT
    requires limitParam.Some? ==> IsInt64(limitParam.value)
    requires pageParam.Some? ==> IsInt64(pageParam.value)
    ensures d.limit == (if limitParam.Some? && limitParam.value > 0 then limitParam.value else 20)
    ensures d.totalItems == totalItems
    ensures d.totalPages == TruncDiv(Wrap64(totalItems + d.limit - 1), d.limit)
    ensures var wanted := if pageParam.Some? && pageParam.value > 0 then pageParam.value else 1;
            d.page == if d.totalPages < 1 then 1 else Min(wanted, d.totalPages)
    ensures Window(d.pageNumbers, d.page, d.totalPages)
    ensures d.prevPage == (if d.page > 1 then d.page - 1 else 1) && d.nextPage == Min(d.page + 1, d.totalPages)
  {
    hide Wrap64, TruncDiv;
    var limit := 20;
    if limitParam.Some? && limitParam.value > 0 {
      limit := limitParam.value;
    }
    var page := 1;
    if pageParam.Some? && pageParam.value > 0 {
      page := pageParam.value;
    }
    var totalPages := TruncDiv(Wrap64(totalItems + limit - 1), limit);
    PageCountBound(totalItems, limit);
    if page > totalPages {
      page := totalPages;
    }
    if page < 1 {
      page := 1;
    }
    var startPage := page - MAX_PAGES_TO_SHOW / 2;
    if startPage < 1 {
      startPage := 1;
    }
    var endPage := startPage + MAX_PAGES_TO_SHOW - 1;
    if endPage > totalPages {
      endPage := totalPages;
      startPage := endPage - MAX_PAGES_TO_SHOW + 1;
      if startPage < 1 {
        startPage := 1;
      }
    }
    var pageNumbers := [];
    var i := startPage;
    while i <= endPage
      invariant startPage <= i && (if startPage <= endPage then i <= endPage + 1 else i == startPage)
      invariant |pageNumbers| == i - startPage
      invariant forall j :: 0 <= j < |pageNumbers| ==> pageNumbers[j] == startPage + j
      decreases endPage - i
    {
      pageNumbers := pageNumbers + [i];
      i := i + 1;
    }
    if totalPages >= 1 {
      assert pageNumbers[page - startPage] == page;
    }
    var prevPage := page - 1;
    if prevPage < 1 {
      prevPage := 1;
    }
    var nextPage := page + 1;
    if nextPage > totalPages {
      nextPage := totalPages;
    }
    d := PaginationData(page, limit, totalItems, totalPages, pageNumbers, prevPage, nextPage);
  }

  /** What the page count comes to, with and without an overflow. */
  lemma PageCount(total: nat, limit: int)
    requires total < SLICE_LIMIT && 1 <= limit < INT64_HALF
    ensures var n := TruncDiv(Wrap64(total + limit - 1), limit);
            if total + limit - 1 < INT64_HALF then n == (total + limit - 1) / limit else n <= 0
  {
    var sum := total + limit - 1;
    if sum < INT64_HALF {
      Wrap64Id(sum);
    } else {
      assert Wrap64(sum) == sum - 2 * INT64_HALF;
      NegDiv(Wrap64(sum), limit);
    }
  }

  lemma NegDiv(n: int, d: int)
    requires n < 0 && d > 0
    ensures TruncDiv(n, d) <= 0
  {
    assert -n / d >= 0;
  }

  /** The page count stays far below the 64-bit range, so the window arithmetic cannot overflow. */
  lemma {:induction false} PageCountBound(total: nat, limit: int)
    requires total < SLICE_LIMIT && 1 <= limit < INT64_HALF
    ensures TruncDiv(Wrap64(total + limit - 1), limit) <= total
  {
    hide TruncDiv, Wrap64;
    PageCount(total, limit);
    CeilBounds(total, limit);
  }

  /** The page count is the rounded-up quotient exactly when the sum that it is computed from does not overflow. */
  lemma {:induction false} HtmlPageCountExact(total: nat, limit: int)
    requires total < SLICE_LIMIT && 1 <= limit < INT64_HALF
    ensures TruncDiv(Wrap64(total + limit - 1), limit) == (total + limit - 1) / limit <==>
            total + limit - 1 < INT64_HALF
  {
    hide TruncDiv, Wrap64;
    PageCount(total, limit);
    if total + limit - 1 >= INT64_HALF {
      CeilUnique(total, limit, 1);
    }
  }

  /**
   The products of an HTML category page. The slice bounds are in range for every request, even one whose
   page count overflowed, and without an overflow the slice is the current page of the list.
   */
  method PagedIDs<T>(ids: seq<T>, d: PaginationData) returns (paged: seq<T>)
    requires |ids| == d.totalItems < SLICE_LIMIT && 1 <= d.limit < INT64_HALF && d.page >= 1
    requires d.totalPages == TruncDiv(Wrap64(d.totalItems + d.limit - 1), d.limit)
    requires d.page == 1 || d.page <= d.totalPages
    ensures paged == Page(ids, d.page, d.limit)
  {
    hide Wrap64, TruncDiv;
    StartBound(|ids|, d.limit, d.page, d.totalPages);
    Wrap64Id((d.page - 1) * d.limit);
    Wrap64Id((d.page - 1) * d.limit + d.limit);
    var startIdx := Wrap64((d.page - 1) * d.limit);
    var endIdx := Wrap64(startIdx + d.limit);
    if startIdx > |ids| {
      startIdx := |ids|;
    }
    if endIdx > |ids| {
      endIdx := |ids|;
    }
    paged := ids[startIdx..endIdx];
  }

  lemma {:induction false} StartBound(total: nat, limit: int, page: int, totalPages: int)
    requires total < SLICE_LIMIT && 1 <= limit < INT64_HALF && page >= 1
    requires totalPages == TruncDiv(Wrap64(total + limit - 1), limit) && (page == 1 || page <= totalPages)
    ensures 0 <= (page - 1) * limit <= total
    ensures (page - 1) * limit + limit < INT64_HALF
  {
    hide TruncDiv, Wrap64;
    if page > 1 {
      PageCount(total, limit);
      CeilBounds(total, limit);
      MulMono(0, page - 1, limit);
      MulMono(page - 1, totalPages - 1, limit);
    }
  }
}
