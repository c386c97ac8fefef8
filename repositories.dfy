/** TaskRepository: the derived and JPQL queries as pure filters over the table's rows, followed by
    ORDER BY and LIMIT/OFFSET. */
module Repositories {
  import opened Wrappers
  import opened Strings
  import opened Models
  import opened Paging

  /** The table, keyed by primary key. */
  type Store = map<TaskId, Task>

  predicate WellKeyed(store: Store) {
    forall id | id in store :: store[id].id == id
  }

  predicate StrictlyIncreasingIds(rows: seq<Task>) {
    forall i, j :: 0 <= i < j < |rows| ==> rows[i].id < rows[j].id
  }

  function IdSet(rows: seq<Task>): set<TaskId> {
    set t | t in rows :: t.id
  }

  /** The rows with primary key in [lo, hi), in key order: the order in which the model's database
      returns rows that an ORDER BY leaves tied. */
  function TableScan(store: Store, lo: TaskId, hi: TaskId): (rows: seq<Task>)
    requires WellKeyed(store)
    ensures StrictlyIncreasingIds(rows)
    ensures forall t :: t in rows <==> lo <= t.id < hi && t.id in store && store[t.id] == t
    decreases hi - lo
  {
    if hi <= lo then []
    else
      var prefix := TableScan(store, lo, hi - 1);
      prefix + (if hi - 1 in store then [store[hi - 1]] else [])
  }

  /** Rows satisfying `keep`, in their original order. */
  function Filter(rows: seq<Task>, keep: Task -> bool): (r: seq<Task>)
    ensures |r| <= |rows|
    ensures forall t :: t in r <==> t in rows && keep(t)
    ensures StrictlyIncreasingIds(rows) ==> StrictlyIncreasingIds(r)
  {
    if rows == [] then []
    else
      var rest := Filter(rows[1..], keep);
      assert rows == [rows[0]] + rows[1..];
      if keep(rows[0]) then
        IncreasingCons(rows[0], rows[1..], rest);
        [rows[0]] + rest
      else
        IncreasingTail(rows[0], rows[1..]);
        rest
  }

  lemma IncreasingTail(h: Task, tail: seq<Task>)
    ensures StrictlyIncreasingIds([h] + tail) ==> StrictlyIncreasingIds(tail)
  {
    if StrictlyIncreasingIds([h] + tail) {
      forall i, j | 0 <= i < j < |tail| ensures tail[i].id < tail[j].id {
        assert tail[i] == ([h] + tail)[i + 1] && tail[j] == ([h] + tail)[j + 1];
      }
    }
  }

  /** A row kept in front of the rows a filter keeps from the rest stays before them. */
  lemma IncreasingCons(h: Task, tail: seq<Task>, kept: seq<Task>)
    requires forall t :: t in kept ==> t in tail
    requires StrictlyIncreasingIds(tail) ==> StrictlyIncreasingIds(kept)
    ensures StrictlyIncreasingIds([h] + tail) ==> StrictlyIncreasingIds([h] + kept)
  {
    if StrictlyIncreasingIds([h] + tail) {
      IncreasingTail(h, tail);
      var r := [h] + kept;
      forall i, j | 0 <= i < j < |r| ensures r[i].id < r[j].id {
        assert r[j] == kept[j - 1] && r[j] in tail;
        var k :| 0 <= k < |tail| && tail[k] == r[j];
        assert ([h] + tail)[k + 1] == r[j];
        if i > 0 {
          assert r[i] == kept[i - 1];
          assert kept[i - 1].id < kept[j - 1].id;
        } else {
          assert r[i] == ([h] + tail)[0];
        }
      }
    }
  }

  /** Two filters that agree on every row select the same rows. */
  lemma {:induction false} FilterExtensional(rows: seq<Task>, k1: Task -> bool, k2: Task -> bool)
    requires forall t :: t in rows ==> k1(t) == k2(t)
    ensures Filter(rows, k1) == Filter(rows, k2)
  {
    if rows != [] {
      assert forall t :: t in rows[1..] ==> t in rows;
      FilterExtensional(rows[1..], k1, k2);
    }
  }

  /** Rows with pairwise distinct keys are counted by their key set. */
  lemma {:induction false} DistinctRowsCount(rows: seq<Task>)
    requires StrictlyIncreasingIds(rows)
    ensures |rows| == |IdSet(rows)|
  {
    if rows != [] {
      var rest := rows[1..];
      DistinctRowsCount(rest);
      assert IdSet(rows) == {rows[0].id} + IdSet(rest) by {
        forall t | t in rows ensures t == rows[0] || t in rest {
        }
      }
      assert rows[0].id !in IdSet(rest);
    }
  }

  // ---------------------------------------------------------------- SQL LIKE

  /** SQL LIKE: '%' matches any run of characters, '_' any one character, everything else itself. */
  predicate Like(s: string, p: string)
    decreases |s| + |p|
  {
    if p == [] then s == []
    else if p[0] == '%' then Like(s, p[1..]) || (s != [] && Like(s[1..], p))
    else s != [] && (p[0] == '_' || p[0] == s[0]) && Like(s[1..], p[1..])
  }

  predicate NoWildcards(w: string) {
    forall i :: 0 <= i < |w| ==> w[i] != '%' && w[i] != '_'
  }

  lemma {:induction false} LikePercentMatchesAll(s: string)
    ensures Like(s, "%")
  {
    if s != [] {
      LikePercentMatchesAll(s[1..]);
    }
  }

  lemma {:induction false} LikePrefix(s: string, w: string)
    requires NoWildcards(w)
    ensures Like(s, w + "%") <==> w <= s
  {
    if w == [] {
      assert w + "%" == "%";
      LikePercentMatchesAll(s);
    } else {
      var p := w + "%";
      assert p[0] == w[0] && p[1..] == w[1..] + "%";
      if s != [] {
        LikePrefix(s[1..], w[1..]);
      }
    }
  }

  lemma {:induction false} LikeLeadingPercent(s: string, q: string)
    ensures Like(s, "%" + q) <==> exists i :: 0 <= i <= |s| && Like(s[i..], q)
  {
    var p := "%" + q;
    assert p[1..] == q;
    if s == [] {
      assert s[0..] == s;
    } else {
      LikeLeadingPercent(s[1..], q);
      if Like(s, p) {
        if Like(s, q) {
          assert s[0..] == s;
        } else {
          var i :| 0 <= i <= |s[1..]| && Like(s[1..][i..], q);
          assert s[1..][i..] == s[i + 1..];
        }
      } else {
        forall i | 0 <= i <= |s| ensures !Like(s[i..], q) {
          if i == 0 {
            assert s[0..] == s;
          } else {
            assert s[1..][i - 1..] == s[i..];
          }
        }
      }
    }
  }

  /** Without wildcards in `w`, LIKE '%w%' is a plain substring test. */
  lemma LikeContains(s: string, w: string)
    requires NoWildcards(w)
    ensures Like(s, "%" + w + "%") <==> IsInfix(w, s)
  {
    assert "%" + w + "%" == "%" + (w + "%");
    LikeLeadingPercent(s, w + "%");
    if IsInfix(w, s) {
      var i :| 0 <= i <= |s| && w <= s[i..];
      LikePrefix(s[i..], w);
    }
    if Like(s, "%" + w + "%") {
      var i :| 0 <= i <= |s| && Like(s[i..], w + "%");
      LikePrefix(s[i..], w);
    }
  }

  // ---------------------------------------------------------------- filters

  /** The search condition of findWithFilters: LOWER(title) LIKE LOWER(CONCAT('%', search, '%')). */
  predicate SearchMatches(title: string, search: string) {
    Like(Lower(title), Lower("%" + search + "%"))
  }

  /** A search free of LIKE wildcards is a case-insensitive substring test on the title. */
  lemma SearchIsCaseInsensitiveSubstring(title: string, search: string)
    requires NoWildcards(search)
    ensures SearchMatches(title, search) <==> IsInfix(Lower(search), Lower(title))
  {
    assert Lower("%" + search + "%") == "%" + Lower(search) + "%";
    LikeContains(Lower(title), Lower(search));
  }

  /** '_' in a search is a wildcard: "a_c" finds the title "ABC" although "a_c" is not part of it. */
  lemma SearchUnderscoreIsWildcard()
    ensures SearchMatches("ABC", "a_c") && !IsInfix("a_c", "abc")
  {
    assert Lower("ABC") == "abc";
    assert Lower("%" + "a_c" + "%") == "%a_c%";
    assert Like("c", "c%") by { LikePercentMatchesAll([]); }
    assert Like("abc", "a_c%");
    assert Like("abc", "%a_c%");
    forall i | 0 <= i <= 3 ensures !("a_c" <= "abc"[i..]) {
      if i == 0 { assert "abc"[0..][1] == 'b'; }
    }
  }

  /** A lower-case word without wildcards is found in any title that starts with it in any case. */
  lemma SearchFindsPrefix(title: string, w: string)
    requires NoWildcards(w) && |w| <= |title|
    requires forall i :: 0 <= i < |w| ==> LowerChar(w[i]) == w[i] && LowerChar(title[i]) == w[i]
    ensures SearchMatches(title, w)
  {
    assert Lower(w) == w;
    var lt := Lower(title);
    assert lt[0..] == lt;
    assert w <= lt[0..];
    SearchIsCaseInsensitiveSubstring(title, w);
  }

  lemma ExampleTitleStartsWithWord()
    ensures NoWildcards("searchable")
    ensures forall i :: 0 <= i < 10 ==>
              LowerChar("searchable"[i]) == "searchable"[i] && LowerChar("Searchable Unique Title"[i]) == "searchable"[i]
  {
    var title := "Searchable Unique Title";
    var w := "searchable";
    forall i | 0 <= i < |w|
      ensures w[i] != '%' && w[i] != '_' && LowerChar(w[i]) == w[i] && LowerChar(title[i]) == w[i]
    {
      assert 'a' <= w[i] <= 'z';
      if i == 0 {
        assert title[0] == 'S' && w[0] == 's';
      } else {
        assert title[i] == w[i];
      }
    }
  }

  /** The example of the functional tests: "searchable" finds "Searchable Unique Title". */
  lemma SearchExample()
    ensures SearchMatches("Searchable Unique Title", "searchable")
  {
    ExampleTitleStartsWithWord();
    SearchFindsPrefix("Searchable Unique Title", "searchable");
  }

  /** The WHERE clause of findWithFilters; an absent parameter imposes nothing. */
  predicate MatchesFilters(t: Task, status: Option<TaskStatus>, priority: Option<TaskPriority>, search: Option<string>) {
    && !t.deleted
    && (status.None? || t.status == status.value)
    && (priority.None? || t.priority == priority.value)
    && (search.None? || SearchMatches(t.title, search.value))
  }

  // ---------------------------------------------------------------- ORDER BY

  datatype Direction = ASC | DESC

  /** Sortable properties; the model sorts on the timestamp and key columns only. */
  datatype SortProperty = Id | DueDateTime | CreatedAt | UpdatedAt

  datatype Sort = Unsorted | SortBy(property: SortProperty, direction: Direction)

  datatype Pageable = Pageable(page: nat, size: nat, sort: Sort)

  function PropertyValue(t: Task, p: SortProperty): int {
    match p
    case Id => t.id
    case DueDateTime => t.dueDateTime
    case CreatedAt => t.createdAt
    case UpdatedAt => t.updatedAt
  }

  /** The ascending sort key: the property itself, or its negation for a descending sort. */
  function SortKey(t: Task, sort: Sort): int {
    match sort
    case Unsorted => 0
    case SortBy(p, d) => if d == ASC then PropertyValue(t, p) else -PropertyValue(t, p)
  }

  predicate SortedBy(rows: seq<Task>, sort: Sort) {
    forall i, j :: 0 <= i < j < |rows| ==> SortKey(rows[i], sort) <= SortKey(rows[j], sort)
  }

  lemma SortedCons(h: Task, tail: seq<Task>, sort: Sort)
    requires SortedBy(tail, sort)
    requires forall y :: y in tail ==> SortKey(h, sort) <= SortKey(y, sort)
    ensures SortedBy([h] + tail, sort)
  {
    var r := [h] + tail;
    forall i, j | 0 <= i < j < |r| ensures SortKey(r[i], sort) <= SortKey(r[j], sort) {
      assert r[j] == tail[j - 1];
      if i > 0 {
        assert r[i] == tail[i - 1];
      }
    }
  }

  /** A key no greater than the first of a sorted list is no greater than any of it. */
  lemma HeadIsLeast(x: Task, rows: seq<Task>, sort: Sort)
    requires SortedBy(rows, sort)
    requires rows == [] || SortKey(x, sort) <= SortKey(rows[0], sort)
    ensures forall y :: y in rows ==> SortKey(x, sort) <= SortKey(y, sort)
  {
    forall y | y in rows ensures SortKey(x, sort) <= SortKey(y, sort) {
      var k :| 0 <= k < |rows| && rows[k] == y;
    }
  }

  /** The first row of a sorted list stays below whatever is inserted after it. */
  lemma HeadBelowInserted(x: Task, rows: seq<Task>, tail: seq<Task>, sort: Sort)
    requires SortedBy(rows, sort) && rows != [] && SortKey(rows[0], sort) < SortKey(x, sort)
    requires multiset(tail) == multiset(rows[1..]) + multiset{x}
    ensures forall y :: y in tail ==> SortKey(rows[0], sort) <= SortKey(y, sort)
  {
    forall y | y in tail ensures SortKey(rows[0], sort) <= SortKey(y, sort) {
      assert y in multiset(tail);
      if y != x {
        assert y in multiset(rows[1..]);
        var k :| 0 <= k < |rows[1..]| && rows[1..][k] == y;
        assert rows[k + 1] == y;
      }
    }
  }

  /** `x` placed before the first row whose key is not smaller; ties keep `x` first. */
  function Insert(x: Task, rows: seq<Task>, sort: Sort): (r: seq<Task>)
    requires SortedBy(rows, sort)
    ensures SortedBy(r, sort)
    ensures multiset(r) == multiset(rows) + multiset{x}
    ensures |r| == |rows| + 1
  {
    if rows == [] || SortKey(x, sort) <= SortKey(rows[0], sort) then
      HeadIsLeast(x, rows, sort);
      SortedCons(x, rows, sort);
      [x] + rows
    else
      var head := rows[0];
      var tail := Insert(x, rows[1..], sort);
      HeadBelowInserted(x, rows, tail, sort);
      assert rows == [head] + rows[1..];
      SortedCons(head, tail, sort);
      [head] + tail
  }

  /** ORDER BY: a stable sort of the rows on the sort key. */
  function SortRows(rows: seq<Task>, sort: Sort): (r: seq<Task>)
    ensures SortedBy(r, sort)
    ensures multiset(r) == multiset(rows)
    ensures |r| == |rows|
  {
    if rows == [] then []
    else
      assert rows == [rows[0]] + rows[1..];
      Insert(rows[0], SortRows(rows[1..], sort), sort)
  }

  /** Without a sort, the rows keep the table order. */
  lemma {:induction false} UnsortedKeepsOrder(rows: seq<Task>)
    ensures SortRows(rows, Unsorted) == rows
  {
    if rows != [] {
      UnsortedKeepsOrder(rows[1..]);
      assert rows == [rows[0]] + rows[1..];
    }
  }

  lemma SortedSlice(rows: seq<Task>, sort: Sort, lo: nat, hi: nat)
    requires SortedBy(rows, sort) && lo <= hi <= |rows|
    ensures SortedBy(rows[lo..hi], sort)
  {
    forall i, j | 0 <= i < j < hi - lo ensures SortKey(rows[lo..hi][i], sort) <= SortKey(rows[lo..hi][j], sort) {
      assert rows[lo..hi][i] == rows[lo + i] && rows[lo..hi][j] == rows[lo + j];
    }
  }

  lemma SortRowsMembers(rows: seq<Task>, sort: Sort)
    ensures forall t :: t in SortRows(rows, sort) ==> t in rows
  {
    var sorted := SortRows(rows, sort);
    forall t | t in sorted ensures t in rows {
      assert t in multiset(sorted);
    }
  }

  /** ORDER BY then LIMIT/OFFSET. */
  function PageOf(rows: seq<Task>, pageable: Pageable): (p: Page<Task>)
    requires pageable.size >= 1
    ensures p.number == pageable.page && p.size == pageable.size && p.totalElements == |rows|
  {
    Paginate(SortRows(rows, pageable.sort), pageable.page, pageable.size)
  }

  /** A page holds rows of the input only, in the requested order. */
  lemma PageOfIsSortedSubset(rows: seq<Task>, pageable: Pageable)
    requires pageable.size >= 1
    ensures forall t :: t in PageOf(rows, pageable).content ==> t in rows
    ensures SortedBy(PageOf(rows, pageable).content, pageable.sort)
  {
    var sorted := SortRows(rows, pageable.sort);
    var lo, hi := PageBounds(sorted, pageable);
    SortedSlice(sorted, pageable.sort, lo, hi);
    SliceMembers(sorted, lo, hi);
    SortRowsMembers(rows, pageable.sort);
  }

  /** The bounds of a page within the sorted rows. */
  lemma PageBounds(sorted: seq<Task>, pageable: Pageable) returns (lo: nat, hi: nat)
    requires pageable.size >= 1
    ensures lo <= hi <= |sorted| && Paginate(sorted, pageable.page, pageable.size).content == sorted[lo..hi]
  {
    PageContentIsSlice(sorted, pageable.page, pageable.size);
    lo := Min(pageable.page * pageable.size, |sorted|);
    hi := lo + |Paginate(sorted, pageable.page, pageable.size).content|;
  }

  lemma SliceMembers<T>(s: seq<T>, lo: nat, hi: nat)
    requires lo <= hi <= |s|
    ensures forall t :: t in s[lo..hi] ==> t in s
  {
    forall t | t in s[lo..hi] ensures t in s {
      var k :| 0 <= k < hi - lo && s[lo..hi][k] == t;
      assert s[lo + k] == t;
    }
  }

  /** Every row of the input is on some page of the sorted result. */
  lemma EveryRowOnSomePage(rows: seq<Task>, size: nat, sort: Sort, t: Task)
    requires size >= 1 && t in rows
    ensures exists k :: 0 <= k < PageOf(rows, Pageable(0, size, sort)).totalPages
                        && t in PageOf(rows, Pageable(k, size, sort)).content
  {
    var sorted := SortRows(rows, sort);
    assert t in multiset(rows);
    var i :| 0 <= i < |sorted| && sorted[i] == t;
    PageIndex(sorted, size, i);
    assert t in PageOf(rows, Pageable(i / size, size, sort)).content;
  }

  // ---------------------------------------------------------------- queries

  /** findByIdAndDeletedFalse. */
  function FindByIdAndDeletedFalse(store: Store, id: TaskId): (r: Option<Task>)
    ensures r.Some? <==> id in store && !store[id].deleted
    ensures r.Some? ==> r.value == store[id]
  {
    if id in store && !store[id].deleted then Some(store[id]) else None
  }

  /** existsByIdAndDeletedFalse. */
  function ExistsByIdAndDeletedFalse(store: Store, id: TaskId): (b: bool) {
    id in store && !store[id].deleted
  }

  lemma ExistsIffFound(store: Store, id: TaskId)
    ensures ExistsByIdAndDeletedFalse(store, id) <==> FindByIdAndDeletedFalse(store, id).Some?
  {
  }

  /** findByDeletedFalse(), the list form. */
  function FindByDeletedFalseList(rows: seq<Task>): (r: seq<Task>)
    ensures forall t :: t in r <==> t in rows && !t.deleted
  {
    Filter(rows, (t: Task) => !t.deleted)
  }

  /** findByDeletedFalse(Pageable). */
  function FindByDeletedFalse(rows: seq<Task>, pageable: Pageable): (p: Page<Task>)
    requires pageable.size >= 1
    ensures forall t :: t in p.content ==> t in rows && !t.deleted
    ensures p.totalElements == |FindByDeletedFalseList(rows)|
    ensures p.number == pageable.page && p.size == pageable.size && SortedBy(p.content, pageable.sort)
  {
    var filtered := FindByDeletedFalseList(rows);
    PageOfIsSortedSubset(filtered, pageable);
    PageOf(filtered, pageable)
  }

  /** findWithFilters. */
  function FindWithFilters(rows: seq<Task>, status: Option<TaskStatus>, priority: Option<TaskPriority>,
                           search: Option<string>, pageable: Pageable): (p: Page<Task>)
    requires pageable.size >= 1
    ensures forall t :: t in p.content ==> t in rows && MatchesFilters(t, status, priority, search)
    ensures p.totalElements == |Filter(rows, (t: Task) => MatchesFilters(t, status, priority, search))|
    ensures p.number == pageable.page && p.size == pageable.size && SortedBy(p.content, pageable.sort)
  {
    var filtered := Filter(rows, (t: Task) => MatchesFilters(t, status, priority, search));
    PageOfIsSortedSubset(filtered, pageable);
    PageOf(filtered, pageable)
  }

  /** findWithFilters misses nothing: every row passing the filters is on some page of the listing. */
  lemma FindWithFiltersIsComplete(rows: seq<Task>, status: Option<TaskStatus>, priority: Option<TaskPriority>,
                                  search: Option<string>, size: nat, sort: Sort, t: Task)
    requires size >= 1 && t in rows && MatchesFilters(t, status, priority, search)
    ensures exists k :: && 0 <= k < FindWithFilters(rows, status, priority, search, Pageable(0, size, sort)).totalPages
                        && t in FindWithFilters(rows, status, priority, search, Pageable(k, size, sort)).content
  {
    EveryRowOnSomePage(Filter(rows, (t: Task) => MatchesFilters(t, status, priority, search)), size, sort, t);
  }

  /** With no filter given, findWithFilters is findByDeletedFalse. */
  lemma NoFiltersIsAllLive(rows: seq<Task>, pageable: Pageable)
    requires pageable.size >= 1
    ensures FindWithFilters(rows, None, None, None, pageable) == FindByDeletedFalse(rows, pageable)
  {
    FilterExtensional(rows, (t: Task) => MatchesFilters(t, None, None, None), (t: Task) => !t.deleted);
  }

  /** findByStatusAndDeletedFalse. */
  function FindByStatusAndDeletedFalse(rows: seq<Task>, status: TaskStatus, pageable: Pageable): (p: Page<Task>)
    requires pageable.size >= 1
    ensures forall t :: t in p.content ==> t in rows && !t.deleted && t.status == status
  {
    var filtered := Filter(rows, (t: Task) => t.status == status && !t.deleted);
    PageOfIsSortedSubset(filtered, pageable);
    PageOf(filtered, pageable)
  }

  /** findByPriorityAndDeletedFalse. */
  function FindByPriorityAndDeletedFalse(rows: seq<Task>, priority: TaskPriority, pageable: Pageable): (p: Page<Task>)
    requires pageable.size >= 1
    ensures forall t :: t in p.content ==> t in rows && !t.deleted && t.priority == priority
  {
    var filtered := Filter(rows, (t: Task) => t.priority == priority && !t.deleted);
    PageOfIsSortedSubset(filtered, pageable);
    PageOf(filtered, pageable)
  }

  /** findByStatusAndPriorityAndDeletedFalse. */
  function FindByStatusAndPriorityAndDeletedFalse(rows: seq<Task>, status: TaskStatus, priority: TaskPriority,
                                                  pageable: Pageable): (p: Page<Task>)
    requires pageable.size >= 1
    ensures forall t :: t in p.content ==> t in rows && !t.deleted && t.status == status && t.priority == priority
  {
    var filtered := Filter(rows, (t: Task) => t.status == status && t.priority == priority && !t.deleted);
    PageOfIsSortedSubset(filtered, pageable);
    PageOf(filtered, pageable)
  }

  /** findByTitleContainingIgnoreCaseAndDeletedFalse: a derived query, so the argument is matched as a
      literal substring (the framework escapes LIKE wildcards). */
  function FindByTitleContainingIgnoreCaseAndDeletedFalse(rows: seq<Task>, title: string, pageable: Pageable): (p: Page<Task>)
    requires pageable.size >= 1
    ensures forall t :: t in p.content ==> t in rows && !t.deleted && IsInfix(Lower(title), Lower(t.title))
    ensures p.totalElements == |Filter(rows, (t: Task) => IsInfix(Lower(title), Lower(t.title)) && !t.deleted)|
    ensures p.number == pageable.page && p.size == pageable.size && SortedBy(p.content, pageable.sort)
  {
    var filtered := Filter(rows, (t: Task) => IsInfix(Lower(title), Lower(t.title)) && !t.deleted);
    PageOfIsSortedSubset(filtered, pageable);
    PageOf(filtered, pageable)
  }

  /** The single-filter derived queries agree with findWithFilters given only that filter. */
  lemma DerivedQueriesAgreeWithFilters(rows: seq<Task>, status: TaskStatus, priority: TaskPriority, pageable: Pageable)
    requires pageable.size >= 1
    ensures FindByStatusAndDeletedFalse(rows, status, pageable) == FindWithFilters(rows, Some(status), None, None, pageable)
    ensures FindByPriorityAndDeletedFalse(rows, priority, pageable) == FindWithFilters(rows, None, Some(priority), None, pageable)
    ensures FindByStatusAndPriorityAndDeletedFalse(rows, status, priority, pageable)
            == FindWithFilters(rows, Some(status), Some(priority), None, pageable)
  {
    FilterExtensional(rows, (t: Task) => t.status == status && !t.deleted,
                      (t: Task) => MatchesFilters(t, Some(status), None, None));
    FilterExtensional(rows, (t: Task) => t.priority == priority && !t.deleted,
                      (t: Task) => MatchesFilters(t, None, Some(priority), None));
    FilterExtensional(rows, (t: Task) => t.status == status && t.priority == priority && !t.deleted,
                      (t: Task) => MatchesFilters(t, Some(status), Some(priority), None));
  }

  /** The derived title search and findWithFilters' search agree when the search has no LIKE
      wildcards. */
  lemma TitleSearchAgreesWithoutWildcards(rows: seq<Task>, search: string, pageable: Pageable)
    requires pageable.size >= 1 && NoWildcards(search)
    ensures FindByTitleContainingIgnoreCaseAndDeletedFalse(rows, search, pageable)
            == FindWithFilters(rows, None, None, Some(search), pageable)
  {
    forall t | t in rows
      ensures (IsInfix(Lower(search), Lower(t.title)) && !t.deleted) == MatchesFilters(t, None, None, Some(search))
    {
      SearchIsCaseInsensitiveSubstring(t.title, search);
    }
    FilterExtensional(rows, (t: Task) => IsInfix(Lower(search), Lower(t.title)) && !t.deleted,
                      (t: Task) => MatchesFilters(t, None, None, Some(search)));
  }

  /** findOverdueTasks. */
  function FindOverdueTasks(rows: seq<Task>, now: Timestamp, pageable: Pageable): (p: Page<Task>)
    requires pageable.size >= 1
    ensures forall t :: t in p.content ==> t in rows && !t.deleted && t.status != COMPLETED && t.dueDateTime < now
    ensures p.totalElements == |Filter(rows, (t: Task) => IsOverdue(t, now))|
    ensures p.number == pageable.page && p.size == pageable.size && SortedBy(p.content, pageable.sort)
  {
    var filtered := Filter(rows, (t: Task) => IsOverdue(t, now));
    PageOfIsSortedSubset(filtered, pageable);
    PageOf(filtered, pageable)
  }

  /** findOverdueTasks misses nothing: every overdue row is on some page of the listing. */
  lemma FindOverdueTasksIsComplete(rows: seq<Task>, now: Timestamp, size: nat, sort: Sort, t: Task)
    requires size >= 1 && t in rows && IsOverdue(t, now)
    ensures exists k :: && 0 <= k < FindOverdueTasks(rows, now, Pageable(0, size, sort)).totalPages
                        && t in FindOverdueTasks(rows, now, Pageable(k, size, sort)).content
  {
    EveryRowOnSomePage(Filter(rows, (t: Task) => IsOverdue(t, now)), size, sort, t);
  }

  /** A cancelled task past its due date is overdue; a completed one never is. */
  lemma CancelledCanBeOverdue(t: Task, now: Timestamp)
    requires !t.deleted && t.dueDateTime < now
    ensures t.status == CANCELLED ==> IsOverdue(t, now)
    ensures t.status == COMPLETED ==> !IsOverdue(t, now)
  {
  }

  /** findByDueDateTimeBeforeAndDeletedFalse. */
  function FindByDueDateTimeBeforeAndDeletedFalse(rows: seq<Task>, cutoff: Timestamp, pageable: Pageable): (p: Page<Task>)
    requires pageable.size >= 1
    ensures forall t :: t in p.content ==> t in rows && !t.deleted && t.dueDateTime < cutoff
    ensures p.totalElements == |Filter(rows, (t: Task) => t.dueDateTime < cutoff && !t.deleted)|
    ensures p.number == pageable.page && p.size == pageable.size && SortedBy(p.content, pageable.sort)
  {
    var filtered := Filter(rows, (t: Task) => t.dueDateTime < cutoff && !t.deleted);
    PageOfIsSortedSubset(filtered, pageable);
    PageOf(filtered, pageable)
  }

  /** findByDueDateTimeAfterAndDeletedFalse. */
  function FindByDueDateTimeAfterAndDeletedFalse(rows: seq<Task>, cutoff: Timestamp, pageable: Pageable): (p: Page<Task>)
    requires pageable.size >= 1
    ensures forall t :: t in p.content ==> t in rows && !t.deleted && t.dueDateTime > cutoff
    ensures p.totalElements == |Filter(rows, (t: Task) => t.dueDateTime > cutoff && !t.deleted)|
    ensures p.number == pageable.page && p.size == pageable.size && SortedBy(p.content, pageable.sort)
  {
    var filtered := Filter(rows, (t: Task) => t.dueDateTime > cutoff && !t.deleted);
    PageOfIsSortedSubset(filtered, pageable);
    PageOf(filtered, pageable)
  }

  /** A task due exactly at the cutoff is neither before nor after it. */
  lemma CutoffIsExcludedBothWays(rows: seq<Task>, cutoff: Timestamp, pageable: Pageable, t: Task)
    requires pageable.size >= 1 && t.dueDateTime == cutoff
    ensures t !in FindByDueDateTimeBeforeAndDeletedFalse(rows, cutoff, pageable).content
    ensures t !in FindByDueDateTimeAfterAndDeletedFalse(rows, cutoff, pageable).content
  {
  }

  /** findByIdInAndDeletedFalse. */
  function FindByIdInAndDeletedFalse(rows: seq<Task>, ids: seq<TaskId>): (r: seq<Task>)
    ensures forall t :: t in r <==> t in rows && t.id in ids && !t.deleted
    ensures StrictlyIncreasingIds(rows) ==> StrictlyIncreasingIds(r)
  {
    Filter(rows, (t: Task) => t.id in ids && !t.deleted)
  }

}
