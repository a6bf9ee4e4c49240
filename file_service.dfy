/** src/services/file.service.ts: the page-to-offset arithmetic of
    `getFilesByUser`. Both of the service's functions otherwise pass their
    arguments to a provider call and return its result. */
module FileService {
  /** The number of rows to skip for a 1-based page. */
  function Skip(page: int, pageSize: int): (skip: int)
    ensures page == 1 ==> skip == 0
    ensures page >= 1 && pageSize >= 0 ==> skip >= 0
  {
    (page - 1) * pageSize
  }

  /** Consecutive pages are consecutive windows: the next page starts exactly
      one page size further on. */
  lemma SkipNextPage(page: int, pageSize: int)
    ensures Skip(page + 1, pageSize) == Skip(page, pageSize) + pageSize
  {
  }

  /** `PagedDataResult<T>`: one page of rows and the count of all matching rows. */
  datatype PagedResult<T> = PagedResult(data: seq<T>, total: int)
}
