/** PagedData: the page payload of list responses. */
module PagedDataDto {
  import opened Paging

  datatype PagedData<T> = PagedData(
    items: seq<T>,
    page: nat,
    size: nat,
    totalElements: nat,
    totalPages: nat,
    first: bool,
    last: bool,
    hasNext: bool,
    hasPrevious: bool)

  /** PagedData.from: a field-for-field copy of the page. */
  function From<T>(p: Page<T>): (d: PagedData<T>)
    ensures d.items == p.content && d.page == p.number && d.size == p.size
    ensures d.totalElements == p.totalElements && d.totalPages == p.totalPages
    ensures d.first == p.first && d.last == p.last && d.hasNext == p.hasNext && d.hasPrevious == p.hasPrevious
  {
    PagedData(p.content, p.number, p.size, p.totalElements, p.totalPages, p.first, p.last, p.hasNext, p.hasPrevious)
  }

  /** The page a payload was copied from. */
  function ToPage<T>(d: PagedData<T>): Page<T> {
    Page(d.items, d.page, d.size, d.totalElements, d.totalPages, d.first, d.last, d.hasNext, d.hasPrevious)
  }

  /** `From` loses nothing: the page can be read back from the payload. */
  lemma FromRoundTrip<T>(p: Page<T>)
    ensures ToPage(From(p)) == p
  {
  }

  /** The payload of a page of `rows`: page and size echo the request, at most `size` items, in row
      order, and totalPages is the ceiling of totalElements / size. */
  lemma PaginatedPayload<T>(rows: seq<T>, number: nat, size: nat)
    requires size >= 1
    ensures var d := From(Paginate(rows, number, size));
            && d.page == number && d.size == size && d.totalElements == |rows|
            && |d.items| <= size
            && (forall i :: 0 <= i < |d.items| ==> d.items[i] == rows[number * size + i])
            && d.totalPages * size >= |rows| && (d.totalPages == 0 || (d.totalPages - 1) * size < |rows|)
  {
  }

  /** An empty result gives no items, no elements and no pages, whatever page is asked for. */
  lemma EmptyPayload<T>(rows: seq<T>, number: nat, size: nat)
    requires size >= 1 && rows == []
    ensures var d := From(Paginate(rows, number, size));
            d.items == [] && d.totalElements == 0 && d.totalPages == 0 && !d.hasNext
  {
  }
}
