/** app/schemas/common.py: the page parameters, the OFFSET/LIMIT window and the response envelope. */
module Pagination {
  import opened Division

  datatype PageRequest = PageRequest(page: int, pageSize: int)

  /** What the request schema lets through. */
  type PageParams = p: PageRequest | p.page >= 1 && 1 <= p.pageSize <= 100 witness PageRequest(1, 20)

  function Offset(p: PageParams): nat {
    assert (p.page - 1) * p.pageSize >= 0;
    (p.page - 1) * p.pageSize
  }

  /** `.offset(..).limit(..)` on an ordered result. */
  function Window<T>(xs: seq<T>, p: PageParams): seq<T> {
    var from := Offset(p);
    if from >= |xs| then []
    else if from + p.pageSize >= |xs| then xs[from..]
    else xs[from..from + p.pageSize]
  }

  datatype Envelope<T> = Envelope(items: seq<T>, total: nat, page: int, pageSize: int,
                                  totalPages: int, hasNext: bool, hasPrev: bool)

  function Create<T>(items: seq<T>, total: nat, p: PageParams): Envelope<T> {
    var ceiling := Ceil(TrueDivide(total, p.pageSize));
    var totalPages := if ceiling > 1 then ceiling else 1;
    Envelope(items, total, p.page, p.pageSize, totalPages, p.page < totalPages, p.page > 1)
  }

  /** The envelope a list endpoint answers with for page number `page` of the result xs. */
  function PageOf<T>(xs: seq<T>, page: int, size: int): Envelope<T>
    requires page >= 1 && 1 <= size <= 100
  {
    Create(Window(xs, PageRequest(page, size)), |xs|, PageRequest(page, size))
  }

  /** The items of pages 1 to k, one after the other. */
  function FirstPages<T>(xs: seq<T>, size: int, k: nat): seq<T>
    requires 1 <= size <= 100
  {
    if k == 0 then [] else FirstPages(xs, size, k - 1) + PageOf(xs, k, size).items
  }

  /** k pages hold the first k * size results, each once and in order. */
  lemma {:induction false} FirstPagesArePrefix<T>(xs: seq<T>, size: int, k: nat)
    requires 1 <= size <= 100
    ensures FirstPages(xs, size, k) == if k * size >= |xs| then xs else xs[..k * size]
  {
    if k > 0 {
      FirstPagesArePrefix(xs, size, k - 1);
      assert k * size == (k - 1) * size + size;
    } else {
      assert xs == [] || xs[..0] == [];
    }
  }

  lemma TotalPagesCover<T>(xs: seq<T>, page: int, size: int)
    requires page >= 1 && 1 <= size <= 100 && |xs| <= P53
    ensures var n := PageOf(xs, page, size).totalPages;
      n >= 1 && (n - 1) * size <= |xs| <= n * size && (|xs| > 0 ==> (n - 1) * size < |xs|)
  {
    FloatCeilingIsExact(|xs|, size);
    CeilDivBounds(|xs|, size);
    if |xs| == 0 {
      assert CeilDiv(0, size) == 0;
    }
  }

  /** The pages 1..total_pages, whichever page announced that number, put together give the list back. */
  lemma PagesPartition<T>(xs: seq<T>, page: int, size: int)
    requires page >= 1 && 1 <= size <= 100 && |xs| <= P53
    ensures FirstPages(xs, size, PageOf(xs, page, size).totalPages) == xs
  {
    TotalPagesCover(xs, page, size);
    FirstPagesArePrefix(xs, size, PageOf(xs, page, size).totalPages);
  }

  lemma LaterPageStartsLater(a: int, b: int, size: int)
    requires size >= 1
    ensures a <= b <==> a * size <= b * size
  {
    if a <= b {
      assert (b - a) * size >= 0;
    } else {
      assert (a - b) * size > 0;
    }
  }

  /** has_next says exactly that some later page has an item. */
  lemma HasNextIff<T>(xs: seq<T>, page: int, size: int)
    requires page >= 1 && 1 <= size <= 100 && |xs| <= P53
    ensures PageOf(xs, page, size).hasNext <==> exists q :: q > page && PageOf(xs, q, size).items != []
  {
    TotalPagesCover(xs, page, size);
    var n := PageOf(xs, page, size).totalPages;
    if page < n {
      LaterPageStartsLater(page, n - 1, size);
      assert PageOf(xs, page + 1, size).items != [];
    } else {
      forall q | q > page
        ensures PageOf(xs, q, size).items == []
      {
        LaterPageStartsLater(n, q - 1, size);
      }
    }
  }
}
