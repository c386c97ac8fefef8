/** Spring Data's Page: one zero-based slice of an ordered result with total, page and size metadata. */
module Paging {

  datatype Page<T> = Page(
    content: seq<T>,
    number: nat,
    size: nat,
    totalElements: nat,
    totalPages: nat,
    first: bool,
    last: bool,
    hasNext: bool,
    hasPrevious: bool)

  function Min(a: int, b: int): int {
    if a <= b then a else b
  }

  /** ceil(a / b). */
  function CeilDiv(a: nat, b: nat): nat
    requires b >= 1
  {
    (a + b - 1) / b
  }

  /** `k` pages of `b` items are enough for `a` items exactly when k >= ceil(a / b). */
  lemma CeilDivCharacterization(a: nat, b: nat, k: nat)
    requires b >= 1
    ensures k < CeilDiv(a, b) <==> k * b < a
  {
    var q := CeilDiv(a, b);
    var r := (a + b - 1) % b;
    assert q * b + r == a + b - 1;
    if k < q {
      assert k + 1 <= q;
      assert (k + 1) * b <= q * b;
      assert k * b < a;
    } else {
      assert q <= k;
      assert q * b <= k * b;
    }
  }

  /** The at most `size` rows from position `offset` on. */
  function Window<T>(rows: seq<T>, offset: nat, size: nat): (w: seq<T>)
    ensures |w| == if offset >= |rows| then 0 else Min(size, |rows| - offset)
    ensures forall i :: 0 <= i < |w| ==> w[i] == rows[offset + i]
  {
    if offset >= |rows| then [] else rows[offset..Min(offset + size, |rows|)]
  }

  /** A window is the run of rows between its two ends. */
  lemma WindowIsSlice<T>(rows: seq<T>, offset: nat, size: nat)
    ensures var lo := Min(offset, |rows|);
            lo + |Window(rows, offset, size)| == Min(offset + size, |rows|)
            && Window(rows, offset, size) == rows[lo..Min(offset + size, |rows|)]
  {
  }

  /** The page `number` of `rows` at `size` items per page, with the metadata Spring's PageImpl derives
      from the requested page and the total count. */
  function Paginate<T>(rows: seq<T>, number: nat, size: nat): (p: Page<T>)
    requires size >= 1
    ensures p.number == number && p.size == size && p.totalElements == |rows|
    ensures p.content == Window(rows, number * size, size)
    ensures p.totalPages * size >= |rows|
    ensures p.totalPages == 0 || (p.totalPages - 1) * size < |rows|
    ensures p.hasPrevious <==> number > 0
    ensures p.first <==> number == 0
    ensures p.hasNext <==> (number + 1) * size < |rows|
    ensures p.last <==> !p.hasNext
  {
    var totalPages := CeilDiv(|rows|, size);
    CeilDivCharacterization(|rows|, size, totalPages);
    CeilDivCharacterization(|rows|, size, number + 1);
    CeilDivCharacterization(|rows|, size, if totalPages > 0 then totalPages - 1 else 0);
    Page(Window(rows, number * size, size), number, size, |rows|, totalPages,
         !(number > 0), !(number + 1 < totalPages), number + 1 < totalPages, number > 0)
  }

  /** A page's content is a contiguous run of the rows. */
  lemma PageContentIsSlice<T>(rows: seq<T>, number: nat, size: nat)
    requires size >= 1
    ensures var p := Paginate(rows, number, size);
            var lo := Min(number * size, |rows|);
            lo + |p.content| <= |rows| && p.content == rows[lo..lo + |p.content|]
  {
    var offset := number * size;
    var w := Paginate(rows, number, size).content;
    assert w == Window(rows, offset, size);
    WindowIsSlice(rows, offset, size);
    assert w == rows[Min(offset, |rows|)..Min(offset + size, |rows|)];
  }

  /** Every row is found on page i / size, at position i % size, and that page exists. */
  lemma PageIndex<T>(rows: seq<T>, size: nat, i: nat)
    requires size >= 1 && i < |rows|
    ensures i / size < Paginate(rows, i / size, size).totalPages
    ensures i % size < |Paginate(rows, i / size, size).content|
    ensures Paginate(rows, i / size, size).content[i % size] == rows[i]
  {
    var q, r := DivMod(i, size);
    var offset := q * size;
    var w := Window(rows, offset, size);
    assert offset <= i < |rows|;
    assert w[r] == rows[offset + r];
    CeilDivCharacterization(|rows|, size, q);
  }

  /** The pages 0 .. k-1 laid end to end. */
  function PagesUpTo<T>(rows: seq<T>, size: nat, k: nat): seq<T>
    requires size >= 1
  {
    if k == 0 then [] else PagesUpTo(rows, size, k - 1) + Paginate(rows, k - 1, size).content
  }

  /** The first k pages hold exactly the first min(k * size, |rows|) rows, in order; so the
      totalPages pages together hold every row once, in order. */
  lemma {:induction false} PagesUpToIsPrefix<T>(rows: seq<T>, size: nat, k: nat)
    requires size >= 1
    ensures PagesUpTo(rows, size, k) == rows[..Min(k * size, |rows|)]
  {
    if k > 0 {
      PagesUpToIsPrefix(rows, size, k - 1);
      var lo, hi := NextPageBounds(rows, size, k);
      PrefixConcat(rows, lo, hi);
    }
  }

  /** Page k - 1 runs from the end of the first k - 1 pages to the end of the first k. */
  lemma NextPageBounds<T>(rows: seq<T>, size: nat, k: nat) returns (lo: nat, hi: nat)
    requires size >= 1 && k >= 1
    ensures lo == Min((k - 1) * size, |rows|) && hi == Min(k * size, |rows|) && lo <= hi
    ensures Paginate(rows, k - 1, size).content == rows[lo..hi]
  {
    var offset := (k - 1) * size;
    MulStep(k, size);
    lo := Min(offset, |rows|);
    hi := Min(offset + size, |rows|);
    WindowIsSlice(rows, offset, size);
  }

  lemma MulStep(k: nat, size: nat)
    requires k >= 1
    ensures (k - 1) * size + size == k * size
  {
  }

  lemma DivMod(i: nat, size: nat) returns (q: nat, r: nat)
    requires size >= 1
    ensures q == i / size && r == i % size && q * size + r == i && r < size
  {
    q, r := i / size, i % size;
  }

  lemma PrefixConcat<T>(s: seq<T>, lo: nat, hi: nat)
    requires lo <= hi <= |s|
    ensures s[..hi] == s[..lo] + s[lo..hi]
  {
  }

  lemma PagesCoverAllRows<T>(rows: seq<T>, size: nat)
    requires size >= 1
    ensures PagesUpTo(rows, size, Paginate(rows, 0, size).totalPages) == rows
  {
    var n := Paginate(rows, 0, size).totalPages;
    PagesUpToIsPrefix(rows, size, n);
    assert n * size >= |rows|;
  }

  /** `Page.map`: the same page over transformed items. */
  function MapPage<T, U>(p: Page<T>, f: T -> U): (q: Page<U>)
    ensures |q.content| == |p.content|
    ensures forall i :: 0 <= i < |p.content| ==> q.content[i] == f(p.content[i])
    ensures q.number == p.number && q.size == p.size && q.totalElements == p.totalElements
    ensures q.totalPages == p.totalPages && q.first == p.first && q.last == p.last
    ensures q.hasNext == p.hasNext && q.hasPrevious == p.hasPrevious
  {
    Page(seq(|p.content|, i requires 0 <= i < |p.content| => f(p.content[i])),
         p.number, p.size, p.totalElements, p.totalPages, p.first, p.last, p.hasNext, p.hasPrevious)
  }

  /** Five rows at two per page: three pages holding 2, 2 and 1 rows. */
  lemma FiveRowsInPagesOfTwo<T>(rows: seq<T>)
    requires |rows| == 5
    ensures Paginate(rows, 0, 2).totalPages == 3
    ensures |Paginate(rows, 0, 2).content| == 2
    ensures |Paginate(rows, 1, 2).content| == 2
    ensures |Paginate(rows, 2, 2).content| == 1 && Paginate(rows, 2, 2).last
    ensures Paginate(rows, 3, 2).content == []
  {
  }
}
