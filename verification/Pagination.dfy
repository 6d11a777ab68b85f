/**
 The two pagination codes: the manager's over its sorted list, the worker's over one listing of its map.
 */
module Pagination {
  import opened Arithmetic

  /** A query parameter as `strconv.Atoi` sees it. */
  datatype Param = Missing | NotANumber | Number(n: int)

  datatype Paging = Paging(page: int, limit: int) | BadPage | BadLimit

  /** `parsePaginationParams` of the manager: anything out of range is an error. */
  function ParseManager(page: Param, limit: Param): Paging {
    var p := match page case Missing => 1 case NotANumber => 0 case Number(n) => n;
    if p < 1 then BadPage
    else
      var l := match limit case Missing => 100 case NotANumber => 0 case Number(n) => n;
      if l < 1 || l > 1000 then BadLimit else Paging(p, l)
  }

  /** The worker falls back to the defaults; it compares the default limit, not the given one, with 1000. */
  method ParseWorker(pageStr: Param, limitStr: Param) returns (page: int, limit: int)
    ensures page == if pageStr.Number? && pageStr.n > 0 then pageStr.n else 1
    ensures limit == if limitStr.Number? && limitStr.n > 0 then limitStr.n else 100
    ensures limit > 1000 <==> limitStr.Number? && limitStr.n > 1000
  {
    page := 1;
    limit := 100;
    match pageStr {
      case Number(p) => if p > 0 { page := p; }
      case _ =>
    }
    match limitStr {
      case Number(l) => if l > 0 && limit <= 1000 { limit := l; }
      case _ =>
    }
  }

  /** Both give the same page and limit, except that the manager refuses what the worker replaces or lets through. */
  lemma ParsersAgreeWhereManagerAccepts(pageStr: Param, limitStr: Param)
    ensures ParseManager(pageStr, limitStr).Paging? <==>
              && (pageStr.Missing? || (pageStr.Number? && pageStr.n >= 1))
              && (limitStr.Missing? || (limitStr.Number? && 1 <= limitStr.n <= 1000))
    ensures var p := ParseManager(pageStr, limitStr);
            p.Paging? ==>
              && p.page == (if pageStr.Number? && pageStr.n > 0 then pageStr.n else 1)
              && p.limit == (if limitStr.Number? && limitStr.n > 0 then limitStr.n else 100)
  {
  }

  // ---------- Pages ----------

  /** A page of a listing with its metadata. */
  datatype Page<T> = Page(tasks: seq<T>, totalPages: int, hasNext: bool, hasPrev: bool)

  function Min(a: int, b: int): int {
    if a < b then a else b
  }

  /** The list cut at the first k entries, k clamped to the list. */
  function Upto<T>(list: seq<T>, k: nat): seq<T> {
    list[..Min(k, |list|)]
  }

  /** The entries of page p: those between the first (p-1)*limit and the first p*limit. */
  function Slice<T>(list: seq<T>, page: nat, limit: nat): seq<T>
    requires page >= 1
  {
    Product(page - 1, limit);
    list[Min((page - 1) * limit, |list|)..Min(page * limit, |list|)]
  }

  lemma Product(a: nat, b: nat)
    ensures 0 <= a * b <= (a + 1) * b && (a + 1) * b == a * b + b
  {
  }

  /** The least number of pages of `limit` that hold n entries. */
  ghost predicate IsPageCount(n: nat, limit: nat, total: int) {
    total >= 0 && total * limit >= n && (total > 0 ==> (total - 1) * limit < n)
  }

  lemma PageCount(n: nat, limit: nat)
    requires limit >= 1
    ensures IsPageCount(n, limit, (n + limit - 1) / limit)
  {
  }

  /** `GetTasksHandler` of the manager: clamp the end, then copy the tasks of the slice in a loop. */
  method ManagerPage<T>(sortedTasks: seq<T>, page: nat, limit: nat) returns (r: Page<T>)
    requires page >= 1 && limit >= 1
    ensures r.tasks == Slice(sortedTasks, page, limit)
    ensures if |sortedTasks| == 0 then r.totalPages == 1 else IsPageCount(|sortedTasks|, limit, r.totalPages)
    ensures r.hasNext == (page * limit < |sortedTasks|) && r.hasPrev == (page > 1)
  {
    Product(page - 1, limit);
    var taskCount := |sortedTasks|;
    var start := (page - 1) * limit;
    var end := Min(start + limit, taskCount);
    var tasks: seq<T> := [];
    if start < taskCount {
      var taskPointers := sortedTasks[start..end];
      for i := 0 to |taskPointers|
        invariant tasks == taskPointers[..i]
      {
        tasks := tasks + [taskPointers[i]];
      }
      assert taskPointers[..|taskPointers|] == taskPointers;
    }
    PageCount(taskCount, limit);
    EmptyPageCount(limit);
    var totalPages := (taskCount + limit - 1) / limit;
    if totalPages == 0 {
      totalPages := 1;
    }
    r := Page(tasks, totalPages, end < taskCount, page > 1);
  }

  lemma EmptyPageCount(limit: nat)
    requires limit >= 1
    ensures (0 + limit - 1) / limit == 0
  {
  }

  /** `GetTasksHandler` of the worker, over one listing of its tasks. */
  method WorkerPage<T>(tasks: seq<T>, page: nat, limit: nat) returns (r: Page<T>)
    requires page >= 1 && limit >= 1
    ensures r.tasks == Slice(tasks, page, limit)
    ensures IsPageCount(|tasks|, limit, r.totalPages)
    ensures r.hasNext == (page < r.totalPages) && r.hasPrev == (page > 1)
  {
    Product(page - 1, limit);
    var totalTasks := |tasks|;
    PageCount(totalTasks, limit);
    var totalPages := (totalTasks + limit - 1) / limit;
    var start := (page - 1) * limit;
    var end := start + limit;
    if start >= totalTasks {
      start := totalTasks;
      end := totalTasks;
    } else if end > totalTasks {
      end := totalTasks;
    }
    var pagedTasks := if start < end then tasks[start..end] else [];
    r := Page(pagedTasks, totalPages, page < totalPages, page > 1);
  }

  // ---------- What pages are good for ----------

  lemma MulMonotone(a: nat, b: nat, n: nat)
    requires a <= b
    ensures a * n <= b * n
  {
  }

  /** A page count is unique, and page p lies wholly before the end exactly when it is not the last. */
  lemma PageCountDecides(n: nat, limit: nat, total: int, page: nat)
    requires limit >= 1 && IsPageCount(n, limit, total)
    ensures page < total <==> page * limit < n
  {
  }

  /** Pages 1 to k, one after the other. */
  function Pages<T>(list: seq<T>, limit: nat, k: nat): seq<T> {
    if k == 0 then [] else Pages(list, limit, k - 1) + Slice(list, k, limit)
  }

  lemma {:induction false} PagesAreAPrefix<T>(list: seq<T>, limit: nat, k: nat)
    ensures k * limit >= 0 && Pages(list, limit, k) == Upto(list, k * limit)
  {
    if k > 0 {
      PagesAreAPrefix(list, limit, k - 1);
      Product(k - 1, limit);
      var a, b := Min((k - 1) * limit, |list|), Min(k * limit, |list|);
      assert list[..a] + list[a..b] == list[..b];
    }
  }

  /**
   Pages tile the list: for every limit of at least 1, pages 1 to the manager's page count, which is 1
   for the empty list, give the list in order, no page is longer than the limit, and of a list that is
   not empty exactly the pages past the count are empty.
   */
  lemma PagesTile<T>(list: seq<T>, limit: nat, total: nat, page: nat)
    requires limit >= 1 && page >= 1
    requires if |list| == 0 then total == 1 else IsPageCount(|list|, limit, total)
    ensures Pages(list, limit, total) == list
    ensures |Slice(list, page, limit)| <= limit
    ensures page > total ==> Slice(list, page, limit) == []
    ensures |list| > 0 && page <= total ==> Slice(list, page, limit) != []
  {
    PagesAreAPrefix(list, limit, total);
    assert Upto(list, total * limit) == list;
    Product(page - 1, limit);
    if |list| > 0 {
      PageCountDecides(|list|, limit, total, page - 1);
    }
  }

  /** `HasNext` of the manager holds exactly when some later page is not empty. */
  lemma HasNextIffLaterPage<T>(list: seq<T>, limit: nat, page: nat)
    requires limit >= 1 && page >= 1
    ensures page * limit < |list| <==> exists p: nat :: p > page && Slice(list, p, limit) != []
  {
    if page * limit < |list| {
      Product(page, limit);
      assert Slice(list, page + 1, limit) != [];
    }
    forall p: nat | p > page && Slice(list, p, limit) != [] ensures page * limit < |list| {
      Product(p - 1, limit);
      MulMonotone(page, p - 1, limit);
    }
  }

  /**
   On the same listing the two handlers answer alike: their slices are the same function of it, their
   `has_next` tests agree, and their page counts differ only on the empty list, 1 against 0.
   */
  lemma HandlersAgree(n: nat, limit: nat, page: nat, managerTotal: int, workerTotal: int)
    requires limit >= 1 && page >= 1
    requires if n == 0 then managerTotal == 1 else IsPageCount(n, limit, managerTotal)
    requires IsPageCount(n, limit, workerTotal)
    ensures page * limit < n <==> page < workerTotal
    ensures managerTotal == if n == 0 then 1 else workerTotal
    ensures n == 0 ==> workerTotal == 0
  {
    PageCountDecides(n, limit, workerTotal, page);
    if n == 0 {
      PageCountDecides(n, limit, workerTotal, 0);
    } else {
      PageCountUnique(n, limit, workerTotal, managerTotal);
    }
  }

  lemma PageCountUnique(n: nat, limit: nat, a: int, b: int)
    requires limit >= 1 && IsPageCount(n, limit, a) && IsPageCount(n, limit, b)
    ensures a == b
  {
  }
}
