/**
 Keyset pagination as the event listing (ascending) and the audit listing (descending) do it: select
 the rows past the cursor in key order, fetch one more than a page, and hand out the key of the last
 row shown as the next cursor. The table may grow between pages.
 */
module KeysetPages {
  import opened Common
  import opened Sorting
  import opened Tokens

  datatype Row = Row(time: int, id: Uuid, tag: nat)

  datatype Key = Key(time: int, id: Uuid)

  function KeyOf(r: Row): Key { Key(r.time, r.id) }

  // ----- The key order -----

  /** Byte order of UUIDs, read off their hexadecimal digits. */
  predicate IdLess(a: string, b: string) {
    if a == "" || b == "" then a == "" && b != ""
    else a[0] < b[0] || (a[0] == b[0] && IdLess(a[1..], b[1..]))
  }

  predicate KeyLess(a: Key, b: Key) {
    a.time < b.time || (a.time == b.time && IdLess(a.id, b.id))
  }

  lemma {:induction false} IdLessAsymmetric(a: string, b: string)
    ensures !(IdLess(a, b) && IdLess(b, a))
  {
    if a != "" && b != "" { IdLessAsymmetric(a[1..], b[1..]); }
  }

  lemma {:induction false} IdLessTransitive(a: string, b: string, c: string)
    requires IdLess(a, b) && IdLess(b, c)
    ensures IdLess(a, c)
  {
    if a != "" && a[0] == b[0] == c[0] { IdLessTransitive(a[1..], b[1..], c[1..]); }
  }

  lemma {:induction false} IdLessTotal(a: string, b: string)
    ensures IdLess(a, b) || IdLess(b, a) || a == b
  {
    if a != "" && b != "" {
      IdLessTotal(a[1..], b[1..]);
      assert a == [a[0]] + a[1..] && b == [b[0]] + b[1..];
    }
  }

  /** Row order of a listing: ascending keys, or descending ones. */
  function RowOrder(descending: bool): (Row, Row) -> bool {
    if descending then (a: Row, b: Row) => KeyLess(KeyOf(b), KeyOf(a))
    else (a: Row, b: Row) => KeyLess(KeyOf(a), KeyOf(b))
  }

  lemma KeyTrichotomy(a: Key, b: Key)
    ensures !(KeyLess(a, b) && KeyLess(b, a))
    ensures a != b ==> KeyLess(a, b) || KeyLess(b, a)
  {
    IdLessAsymmetric(a.id, b.id);
    IdLessTotal(a.id, b.id);
  }

  lemma KeyLessTransitive(a: Key, b: Key, c: Key)
    requires KeyLess(a, b) && KeyLess(b, c)
    ensures KeyLess(a, c)
  {
    if a.time == b.time == c.time { IdLessTransitive(a.id, b.id, c.id); }
  }

  lemma NotLessTransitive(a: Key, b: Key, c: Key)
    requires !KeyLess(b, a) && !KeyLess(c, b)
    ensures !KeyLess(c, a)
  {
    KeyTrichotomy(a, b);
    KeyTrichotomy(b, c);
    KeyTrichotomy(a, c);
    if a != b && b != c { KeyLessTransitive(a, b, c); }
  }

  lemma RowOrderIsAnOrder(descending: bool)
    ensures StrictWeak(RowOrder(descending))
  {
    var less := RowOrder(descending);
    forall a: Row, b: Row | less(a, b) ensures !less(b, a) {
      KeyTrichotomy(KeyOf(a), KeyOf(b));
    }
    forall a: Row, b: Row, c: Row | !less(b, a) && !less(c, b) ensures !less(c, a) {
      if descending { NotLessTransitive(KeyOf(c), KeyOf(b), KeyOf(a)); }
      else { NotLessTransitive(KeyOf(a), KeyOf(b), KeyOf(c)); }
    }
  }

  // ----- The query -----

  /** The id is the primary key, so no two rows share a key. */
  ghost predicate DistinctKeys(table: seq<Row>) {
    forall i, j :: 0 <= i < j < |table| ==> KeyOf(table[i]) != KeyOf(table[j])
  }

  predicate Past(descending: bool, cursor: Option<Key>, r: Row) {
    cursor.None? ||
    (if descending then KeyLess(KeyOf(r), cursor.value) else KeyLess(cursor.value, KeyOf(r)))
  }

  function Where(table: seq<Row>, keep: Row -> bool, descending: bool, cursor: Option<Key>): seq<Row> {
    if table == [] then []
    else
      var r := table[|table| - 1];
      Where(table[..|table| - 1], keep, descending, cursor)
      + (if keep(r) && Past(descending, cursor, r) then [r] else [])
  }

  /** SELECT ... WHERE filters AND past the cursor ORDER BY key. */
  function Select(table: seq<Row>, keep: Row -> bool, descending: bool, cursor: Option<Key>): seq<Row> {
    Sort(RowOrder(descending), Where(table, keep, descending, cursor))
  }

  datatype Page = Page(rows: seq<Row>, next: Option<Key>)

  /** LIMIT limit + 1, then cut: the extra row only tells whether there is another page. */
  function PageOf(hits: seq<Row>, limit: nat): Page
    requires limit > 0
  {
    if |hits| > limit then Page(hits[..limit], Some(KeyOf(hits[limit - 1]))) else Page(hits, None)
  }

  lemma {:induction false} WhereContents(table: seq<Row>, keep: Row -> bool, descending: bool, cursor: Option<Key>)
    ensures forall r ::
      r in Where(table, keep, descending, cursor) <==> r in table && keep(r) && Past(descending, cursor, r)
  {
    if table != [] {
      var n := |table| - 1;
      WhereContents(table[..n], keep, descending, cursor);
      assert table == table[..n] + [table[n]];
    }
  }

  lemma {:induction false} WhereDistinct(table: seq<Row>, keep: Row -> bool, descending: bool, cursor: Option<Key>)
    requires DistinctKeys(table)
    ensures DistinctKeys(Where(table, keep, descending, cursor))
  {
    if table != [] {
      var n := |table| - 1;
      WhereDistinct(table[..n], keep, descending, cursor);
      WhereContents(table[..n], keep, descending, cursor);
      forall r | r in Where(table[..n], keep, descending, cursor) ensures KeyOf(r) != KeyOf(table[n]) {
        assert r in table[..n];
      }
    }
  }

  /** A listing is strictly ordered and contains exactly the matching rows past the cursor. */
  ghost predicate Lists(l: seq<Row>, table: seq<Row>, keep: Row -> bool, descending: bool, cursor: Option<Key>) {
    && StrictlySorted(RowOrder(descending), l)
    && forall r :: r in l <==> r in table && keep(r) && Past(descending, cursor, r)
  }

  lemma SelectLists(table: seq<Row>, keep: Row -> bool, descending: bool, cursor: Option<Key>)
    requires DistinctKeys(table)
    ensures Lists(Select(table, keep, descending, cursor), table, keep, descending, cursor)
  {
    var hits := Where(table, keep, descending, cursor);
    WhereContents(table, keep, descending, cursor);
    WhereDistinct(table, keep, descending, cursor);
    RowOrderIsAnOrder(descending);
    forall i, j | 0 <= i < j < |hits|
      ensures RowOrder(descending)(hits[i], hits[j]) || RowOrder(descending)(hits[j], hits[i])
    {
      KeyTrichotomy(KeyOf(hits[i]), KeyOf(hits[j]));
    }
    SortStrictly(RowOrder(descending), hits);
  }

  lemma ListingIsSelect(l: seq<Row>, table: seq<Row>, keep: Row -> bool, descending: bool, cursor: Option<Key>)
    requires DistinctKeys(table) && Lists(l, table, keep, descending, cursor)
    ensures l == Select(table, keep, descending, cursor)
  {
    SelectLists(table, keep, descending, cursor);
    RowOrderIsAnOrder(descending);
    StrictlySortedUnique(RowOrder(descending), l, Select(table, keep, descending, cursor));
  }

  // ----- The order, in numbers -----

  /** Id `a` comes before id `b`: they agree up to a digit that is smaller in `a`. */
  ghost predicate IdBefore(a: string, b: string) {
    exists k :: 0 <= k < |a| && k < |b| && a[..k] == b[..k] && a[k] < b[k]
  }

  lemma {:induction false} IdLessIff(a: string, b: string)
    requires |a| == |b|
    ensures IdLess(a, b) <==> IdBefore(a, b)
  {
    if a != "" {
      IdLessIff(a[1..], b[1..]);
      if a[0] < b[0] { assert a[..0] == b[..0]; }
      if a[0] == b[0] && IdBefore(a[1..], b[1..]) {
        var k :| 0 <= k < |a[1..]| && k < |b[1..]| && a[1..][..k] == b[1..][..k] && a[1..][k] < b[1..][k];
        assert a[..k + 1] == [a[0]] + a[1..][..k] && b[..k + 1] == [b[0]] + b[1..][..k];
      }
      if IdBefore(a, b) {
        var k :| 0 <= k < |a| && k < |b| && a[..k] == b[..k] && a[k] < b[k];
        if k > 0 {
          assert a[0] == a[..k][0] && b[0] == b[..k][0];
          assert a[1..][..k - 1] == a[..k][1..] && b[1..][..k - 1] == b[..k][1..];
        }
      }
    }
  }

  /** Earlier in time, or at the same time with the smaller id. */
  ghost predicate Earlier(time: int, id: string, time': int, id': string) {
    time < time' || (time == time' && IdBefore(id, id'))
  }

  lemma KeyLessIff(a: Key, b: Key)
    ensures KeyLess(a, b) <==> Earlier(a.time, a.id, b.time, b.id)
  {
    IdLessIff(a.id, b.id);
  }

  /** In numbers: the listing's order by time and id. */
  ghost predicate InOrder(rows: seq<Row>, descending: bool) {
    forall i, j :: 0 <= i < j < |rows| ==>
      if descending then Earlier(rows[j].time, rows[j].id, rows[i].time, rows[i].id)
      else Earlier(rows[i].time, rows[i].id, rows[j].time, rows[j].id)
  }

  /** The ascending listing: earlier rows first, and behind a cursor exactly the later matching rows. */
  lemma AscendingListing(table: seq<Row>, keep: Row -> bool, cursor: Option<Key>)
    requires DistinctKeys(table)
    ensures var rows := Select(table, keep, false, cursor);
      && InOrder(rows, false)
      && (forall r :: r in rows <==>
            r in table && keep(r) && (cursor.Some? ==> Earlier(cursor.value.time, cursor.value.id, r.time, r.id)))
  {
    SelectLists(table, keep, false, cursor);
    var rows := Select(table, keep, false, cursor);
    forall i, j | 0 <= i < j < |rows| ensures Earlier(rows[i].time, rows[i].id, rows[j].time, rows[j].id) {
      assert RowOrder(false)(rows[i], rows[j]);
      KeyLessIff(KeyOf(rows[i]), KeyOf(rows[j]));
    }
    forall r ensures r in rows <==>
      r in table && keep(r) && (cursor.Some? ==> Earlier(cursor.value.time, cursor.value.id, r.time, r.id))
    {
      if cursor.Some? { KeyLessIff(cursor.value, KeyOf(r)); }
    }
  }

  /** The descending listing: later rows first, and behind a cursor exactly the earlier matching rows. */
  lemma DescendingListing(table: seq<Row>, keep: Row -> bool, cursor: Option<Key>)
    requires DistinctKeys(table)
    ensures var rows := Select(table, keep, true, cursor);
      && InOrder(rows, true)
      && (forall r :: r in rows <==>
            r in table && keep(r) && (cursor.Some? ==> Earlier(r.time, r.id, cursor.value.time, cursor.value.id)))
  {
    SelectLists(table, keep, true, cursor);
    var rows := Select(table, keep, true, cursor);
    forall i, j | 0 <= i < j < |rows| ensures Earlier(rows[j].time, rows[j].id, rows[i].time, rows[i].id) {
      assert RowOrder(true)(rows[i], rows[j]);
      KeyLessIff(KeyOf(rows[j]), KeyOf(rows[i]));
    }
    forall r ensures r in rows <==>
      r in table && keep(r) && (cursor.Some? ==> Earlier(r.time, r.id, cursor.value.time, cursor.value.id))
    {
      if cursor.Some? { KeyLessIff(KeyOf(r), cursor.value); }
    }
  }

  // ----- Resuming at a cursor -----

  /** Rows added to the table are all later than every row that was there. */
  ghost predicate GrewLater(table: seq<Row>, table': seq<Row>) {
    && |table| <= |table'| && table'[..|table|] == table
    && forall i, r :: |table| <= i < |table'| && r in table ==> KeyLess(KeyOf(r), KeyOf(table'[i]))
  }

  /** Resuming at the key of row `k` of a listing continues right behind it, even if later rows were
      added meanwhile to a descending listing. */
  lemma ResumeBehind(table: seq<Row>, table': seq<Row>, keep: Row -> bool, descending: bool, k: nat)
    requires DistinctKeys(table) && DistinctKeys(table')
    requires table' == table || (descending && GrewLater(table, table'))
    requires k < |Select(table, keep, descending, None)|
    ensures var all := Select(table, keep, descending, None);
      Select(table', keep, descending, Some(KeyOf(all[k]))) == all[k + 1..]
  {
    var all := Select(table, keep, descending, None);
    var cursor := Some(KeyOf(all[k]));
    var rest := all[k + 1..];
    var less := RowOrder(descending);
    SelectLists(table, keep, descending, None);
    RowOrderIsAnOrder(descending);
    assert all[k] in all;
    forall r ensures r in rest <==> r in table' && keep(r) && Past(descending, cursor, r) {
      if r in rest {
        var i :| 0 <= i < |rest| && rest[i] == r;
        assert all[k + 1 + i] == r && r in all && less(all[k], r);
        assert r in table';
      }
      if r in table' && keep(r) && Past(descending, cursor, r) {
        OldRow(table, table', descending, all[k], r);
        assert r in all;
        var i :| 0 <= i < |all| && all[i] == r;
        assert less(all[k], r);
        assert i > k && rest[i - k - 1] == r;
      }
    }
    ListingIsSelect(rest, table', keep, descending, cursor);
  }

  /** A row past a cursor taken from the old table is itself an old row. */
  lemma OldRow(table: seq<Row>, table': seq<Row>, descending: bool, at: Row, r: Row)
    requires table' == table || (descending && GrewLater(table, table'))
    requires at in table && r in table' && Past(descending, Some(KeyOf(at)), r)
    ensures r in table
  {
    var i :| 0 <= i < |table'| && table'[i] == r;
    if i < |table| {
      assert table'[..|table|][i] == r;
    } else {
      KeyTrichotomy(KeyOf(at), KeyOf(r));
      assert false;
    }
  }

  /** Without the "later" assumption: a row added behind the cursor shows up in the next pages exactly
      when it matches the filters and lies past the cursor. */
  lemma AddedRowShowsIff(table: seq<Row>, added: Row, keep: Row -> bool, descending: bool, cursor: Key)
    requires DistinctKeys(table + [added]) && DistinctKeys(table) && added !in table
    ensures added in Select(table + [added], keep, descending, Some(cursor)) <==>
      keep(added) && Past(descending, Some(cursor), added)
    ensures !(keep(added) && Past(descending, Some(cursor), added)) ==>
      Select(table + [added], keep, descending, Some(cursor)) == Select(table, keep, descending, Some(cursor))
  {
    SelectLists(table + [added], keep, descending, Some(cursor));
    SelectLists(table, keep, descending, Some(cursor));
    if !(keep(added) && Past(descending, Some(cursor), added)) {
      ListingIsSelect(Select(table, keep, descending, Some(cursor)), table + [added], keep, descending, Some(cursor));
    }
  }

  // ----- Following the cursors -----

  /** `pages` is what a client sees that starts without a cursor and follows each `next` it is given;
      `tables[i]` is the table when page `i` is read. */
  ghost predicate Walk(pages: seq<Page>, tables: seq<seq<Row>>, keep: Row -> bool, descending: bool, limit: nat)
    requires limit > 0
  {
    && 0 < |pages| <= |tables|
    && pages[0] == PageOf(Select(tables[0], keep, descending, None), limit)
    && forall i :: 0 <= i < |pages| - 1 ==>
         && pages[i].next.Some?
         && pages[i + 1] == PageOf(Select(tables[i + 1], keep, descending, pages[i].next), limit)
  }

  /** The tables a walk sees: unchanged, or for a descending listing grown by later rows only. */
  ghost predicate Undisturbed(tables: seq<seq<Row>>, descending: bool) {
    && |tables| > 0
    && forall i :: 0 <= i < |tables| ==>
         DistinctKeys(tables[i]) && (tables[i] == tables[0] || (descending && GrewLater(tables[0], tables[i])))
  }

  function Offset(i: nat, limit: nat): nat {
    if i == 0 then 0 else Offset(i - 1, limit) + limit
  }

  /** How many pages `n` rows fill; no rows still fill one. */
  function PageCount(n: nat, limit: nat): nat
    requires limit > 0
  {
    if n <= limit then 1 else 1 + PageCount(n - limit, limit)
  }

  /** Page `i` shows the rows from i·limit on, at most `limit` of them, and there is a next cursor
      exactly while rows remain. */
  ghost predicate Slice(page: Page, all: seq<Row>, limit: nat, i: nat)
    requires limit > 0
  {
    && Offset(i, limit) <= |all| && (i > 0 ==> Offset(i, limit) < |all|)
    && page == PageOf(all[Offset(i, limit)..], limit)
  }

  /** A slice with a cursor is full, and the cursor is its last row's key. */
  lemma SliceCursor(page: Page, all: seq<Row>, limit: nat, i: nat)
    requires limit > 0 && Slice(page, all, limit, i) && page.next.Some?
    ensures Offset(i, limit) + limit < |all|
    ensures page.next == Some(KeyOf(all[Offset(i, limit) + limit - 1]))
  {
    var o := Offset(i, limit);
    assert all[o..][limit - 1] == all[o + limit - 1];
  }

  lemma SliceFollows(all: seq<Row>, hits: seq<Row>, limit: nat, i: nat)
    requires limit > 0 && Offset(i, limit) + limit < |all| && hits == all[Offset(i, limit) + limit..]
    ensures Slice(PageOf(hits, limit), all, limit, i + 1)
  {
  }

  lemma NextSlice(
      table: seq<Row>, table': seq<Row>, page: Page, keep: Row -> bool, descending: bool, limit: nat, i: nat)
    requires limit > 0 && DistinctKeys(table) && DistinctKeys(table')
    requires table' == table || (descending && GrewLater(table, table'))
    requires Slice(page, Select(table, keep, descending, None), limit, i) && page.next.Some?
    ensures Slice(PageOf(Select(table', keep, descending, page.next), limit),
                  Select(table, keep, descending, None), limit, i + 1)
  {
    var all := Select(table, keep, descending, None);
    SliceCursor(page, all, limit, i);
    ResumeBehind(table, table', keep, descending, Offset(i, limit) + limit - 1);
    SliceFollows(all, Select(table', keep, descending, page.next), limit, i);
  }

  lemma {:induction false} WalkSlices(
      pages: seq<Page>, tables: seq<seq<Row>>, keep: Row -> bool, descending: bool, limit: nat, i: nat)
    requires limit > 0 && Walk(pages, tables, keep, descending, limit) && Undisturbed(tables, descending) && i < |pages|
    ensures Slice(pages[i], Select(tables[0], keep, descending, None), limit, i)
  {
    if i == 0 {
      var all := Select(tables[0], keep, descending, None);
      assert all[0..] == all;
    } else {
      var k := i - 1;
      WalkSlices(pages, tables, keep, descending, limit, k);
      assert pages[k + 1] == PageOf(Select(tables[k + 1], keep, descending, pages[k].next), limit);
      NextSlice(tables[0], tables[i], pages[k], keep, descending, limit, k);
    }
  }

  /** The rows of the first `n` pages. */
  function Shown(pages: seq<Page>, n: nat): seq<Row>
    requires n <= |pages|
  {
    if n == 0 then [] else Shown(pages, n - 1) + pages[n - 1].rows
  }

  lemma AppendSlice(page: Page, all: seq<Row>, limit: nat, i: nat)
    requires limit > 0 && Slice(page, all, limit, i)
    ensures all[..Offset(i, limit)] + page.rows == all[..Min(Offset(i + 1, limit), |all|)]
  {
    var o := Offset(i, limit);
    if |all| - o > limit {
      assert all[..o] + all[o..][..limit] == all[..o + limit];
    } else {
      assert all[..o] + all[o..] == all[..|all|];
    }
  }

  lemma {:induction false} SlicesAddUp(pages: seq<Page>, all: seq<Row>, limit: nat, n: nat)
    requires limit > 0 && n <= |pages| && forall i :: 0 <= i < n ==> Slice(pages[i], all, limit, i)
    ensures Shown(pages, n) == all[..Min(Offset(n, limit), |all|)]
  {
    if n > 0 {
      SlicesAddUp(pages, all, limit, n - 1);
      assert Slice(pages[n - 1], all, limit, n - 1);
      AppendSlice(pages[n - 1], all, limit, n - 1);
    }
  }

  /** Following `next` from the first page to null returns exactly the matching rows that were there
      at the start, in order, each once, in max(1, ceil(n / limit)) pages. */
  lemma WalkReturnsEverythingOnce(
      pages: seq<Page>, tables: seq<seq<Row>>, keep: Row -> bool, descending: bool, limit: nat)
    requires limit > 0 && Walk(pages, tables, keep, descending, limit) && Undisturbed(tables, descending)
    requires pages[|pages| - 1].next.None?
    ensures var all := Select(tables[0], keep, descending, None);
      && Shown(pages, |pages|) == all
      && InOrder(all, descending) && (forall r :: r in all <==> r in tables[0] && keep(r))
      && |pages| == PageCount(|all|, limit)
  {
    var all := Select(tables[0], keep, descending, None);
    forall i | 0 <= i < |pages| ensures Slice(pages[i], all, limit, i) {
      WalkSlices(pages, tables, keep, descending, limit, i);
    }
    SlicesToTheEnd(pages, all, limit);
    if descending { DescendingListing(tables[0], keep, None); } else { AscendingListing(tables[0], keep, None); }
  }

  lemma SlicesToTheEnd(pages: seq<Page>, all: seq<Row>, limit: nat)
    requires limit > 0 && pages != [] && forall i :: 0 <= i < |pages| ==> Slice(pages[i], all, limit, i)
    requires pages[|pages| - 1].next.None?
    ensures Shown(pages, |pages|) == all && |pages| == PageCount(|all|, limit)
  {
    SlicesAddUp(pages, all, limit, |pages|);
    var last := |pages| - 1;
    assert Slice(pages[last], all, limit, last);
    assert all[..|all|] == all;
    PageCountAt(|all|, limit, last);
  }

  lemma {:induction false} PageCountAt(n: nat, limit: nat, last: nat)
    requires limit > 0 && Offset(last, limit) <= n <= Offset(last, limit) + limit
    requires last > 0 ==> Offset(last, limit) < n
    ensures PageCount(n, limit) == last + 1
    decreases last
  {
    if last > 0 {
      OffsetGrows(last - 1, limit);
      PageCountAt(n - limit, limit, last - 1);
    }
  }

  lemma {:induction false} PageCountBounds(n: nat, limit: nat)
    requires limit > 0
    ensures var c := PageCount(n, limit); (c - 1) * limit <= n <= c * limit && (c > 1 ==> (c - 1) * limit < n)
  {
    if n > limit {
      PageCountBounds(n - limit, limit);
      var c := PageCount(n, limit);
      assert (c - 1) * limit == (c - 2) * limit + limit && c * limit == (c - 1) * limit + limit;
    }
  }

  /** The page count is max(1, ceil(n / limit)). */
  lemma PageCountIsCeiling(n: nat, limit: nat)
    requires limit > 0
    ensures PageCount(n, limit) == Max(1, (n + limit - 1) / limit)
  {
    PageCountBounds(n, limit);
    var c := PageCount(n, limit);
    if n > 0 {
      var r := n - (c - 1) * limit;
      assert n + limit - 1 == c * limit + (r - 1);
      DivideSplit(c, limit, r - 1);
    } else {
      DivideSplit(0, limit, limit - 1);
    }
  }

  /** A walk cannot go on forever: it has at most as many pages as there are rows. */
  lemma WalkEnds(pages: seq<Page>, tables: seq<seq<Row>>, keep: Row -> bool, descending: bool, limit: nat)
    requires limit > 0 && Walk(pages, tables, keep, descending, limit) && Undisturbed(tables, descending)
    ensures |pages| <= Max(1, |Select(tables[0], keep, descending, None)|)
  {
    WalkSlices(pages, tables, keep, descending, limit, |pages| - 1);
    OffsetGrows(|pages| - 1, limit);
  }

  lemma {:induction false} OffsetGrows(i: nat, limit: nat)
    requires limit > 0
    ensures Offset(i, limit) >= i
  {
    if i > 0 { OffsetGrows(i - 1, limit); }
  }

  // ----- The two listings -----

  /** The event listing with its textual cursor; a cursor that does not decode is refused. */
  function EventPage(table: seq<Row>, keep: Row -> bool, limit: nat, cursor: Option<string>)
    : Option<(seq<Row>, Option<string>)>
    requires limit > 0
  {
    var key := if cursor.None? then None else DecodeEventCursor(cursor.value);
    if cursor.Some? && key.None? then None
    else
      var at := if key.None? then None else Some(Key(key.value.0, key.value.1));
      var page := PageOf(Select(table, keep, false, at), limit);
      Some((page.rows, CursorText(page.next)))
  }

  function CursorText(next: Option<Key>): Option<string> {
    if next.None? then None else Some(EncodeEventCursor(next.value.time, next.value.id))
  }

  /** A request is refused exactly for a cursor that does not decode. */
  lemma BadCursorIsRefused(table: seq<Row>, keep: Row -> bool, limit: nat, cursor: Option<string>)
    requires limit > 0
    ensures EventPage(table, keep, limit, cursor).None? <==> cursor.Some? && DecodeEventCursor(cursor.value).None?
  {
  }

  /** Following the textual cursor of a page is following its key, so every walk above is a walk of
      the event listing. */
  lemma EventPageFollowsKeys(table: seq<Row>, keep: Row -> bool, limit: nat, cursor: Option<Key>)
    requires limit > 0
    ensures var page := PageOf(Select(table, keep, false, cursor), limit);
      EventPage(table, keep, limit, CursorText(cursor)) == Some((page.rows, CursorText(page.next)))
  {
    if cursor.Some? { EventCursorRoundTrip(cursor.value.time, cursor.value.id); }
  }

  // ----- The audit listing, which adds a row with every page it shows -----

  /** The row is later than every row of the table, or at the same time with a greater id. */
  ghost predicate Later(table: seq<Row>, r: Row) {
    forall i :: 0 <= i < |table| ==> Earlier(table[i].time, table[i].id, r.time, r.id)
  }

  lemma GrewLaterTransitive(a: seq<Row>, b: seq<Row>, c: seq<Row>)
    requires GrewLater(a, b) && GrewLater(b, c)
    ensures GrewLater(a, c)
  {
    assert c[..|a|] == c[..|b|][..|a|];
    forall i, r | |a| <= i < |c| && r in a ensures KeyLess(KeyOf(r), KeyOf(c[i])) {
      if i < |b| {
        assert c[..|b|][i] == b[i];
      } else {
        var k :| 0 <= k < |a| && a[k] == r;
        assert b[..|a|][k] == r && r in b;
      }
    }
  }

  lemma LaterRowGrows(table: seq<Row>, view: Row)
    requires DistinctKeys(table) && Later(table, view)
    ensures DistinctKeys(table + [view]) && GrewLater(table, table + [view])
  {
    forall i | 0 <= i < |table| ensures KeyLess(KeyOf(table[i]), KeyOf(view)) && KeyOf(table[i]) != KeyOf(view) {
      KeyLessIff(KeyOf(table[i]), KeyOf(view));
      KeyTrichotomy(KeyOf(table[i]), KeyOf(view));
    }
  }

  /** The cursor sent with request `i`. */
  function CursorFor(pages: seq<Page>, i: nat): Option<Key>
    requires i <= |pages|
  {
    if i == 0 then None else pages[i - 1].next
  }

  /** What a client sees that calls the listing, follows each `next`, and stops when there is none:
      every call answers from the table it finds and adds a row of its own. */
  ghost predicate AuditWalk(
      pages: seq<Page>, tables: seq<seq<Row>>, views: seq<Row>, keep: Row -> bool, limit: nat)
    requires limit > 0
  {
    && 0 < |pages| == |tables| == |views|
    && (forall i :: 0 <= i < |pages| ==>
          pages[i] == PageOf(Select(tables[i], keep, true, CursorFor(pages, i)), limit))
    && (forall i :: 0 <= i < |pages| ==> (pages[i].next.None? <==> i == |pages| - 1))
    && (forall i :: 0 <= i < |pages| - 1 ==> tables[i + 1] == tables[i] + [views[i]])
  }

  lemma {:induction false} AuditTablesGrow(
      pages: seq<Page>, tables: seq<seq<Row>>, views: seq<Row>, keep: Row -> bool, limit: nat, i: nat)
    requires limit > 0 && AuditWalk(pages, tables, views, keep, limit) && i < |tables| && DistinctKeys(tables[0])
    requires forall k :: 0 <= k < |views| ==> Later(tables[k], views[k])
    ensures DistinctKeys(tables[i]) && GrewLater(tables[0], tables[i])
  {
    if i > 0 {
      AuditTablesGrow(pages, tables, views, keep, limit, i - 1);
      LaterRowGrows(tables[i - 1], views[i - 1]);
      assert tables[i] == tables[i - 1] + [views[i - 1]];
      GrewLaterTransitive(tables[0], tables[i - 1], tables[i]);
    }
  }

  /** Such a client sees exactly the matching rows that were there before its first call, in order and
      each once, although every call adds a row. */
  lemma AuditWalkReturnsEverythingOnce(
      pages: seq<Page>, tables: seq<seq<Row>>, views: seq<Row>, keep: Row -> bool, limit: nat)
    requires limit > 0 && AuditWalk(pages, tables, views, keep, limit) && DistinctKeys(tables[0])
    requires forall k :: 0 <= k < |views| ==> Later(tables[k], views[k])
    ensures var all := Select(tables[0], keep, true, None);
      && Shown(pages, |pages|) == all
      && InOrder(all, true) && (forall r :: r in all <==> r in tables[0] && keep(r))
      && |pages| == PageCount(|all|, limit)
  {
    forall i | 0 <= i < |tables| ensures DistinctKeys(tables[i]) && GrewLater(tables[0], tables[i]) {
      AuditTablesGrow(pages, tables, views, keep, limit, i);
    }
    assert Undisturbed(tables, true);
    assert CursorFor(pages, 0) == None;
    forall i | 0 <= i < |pages| - 1 ensures CursorFor(pages, i + 1) == pages[i].next { }
    assert Walk(pages, tables, keep, true, limit);
    WalkReturnsEverythingOnce(pages, tables, keep, true, limit);
  }

  class AuditLog {
    var rows: seq<Row>

    constructor ()
      ensures rows == []
    {
      rows := [];
    }

    /** Read one page, then record the view: one call of an audit walk. */
    method List(keep: Row -> bool, limit: nat, cursor: Option<Key>, view: Row) returns (page: Page)
      requires limit > 0
      modifies this
      ensures page == PageOf(Select(old(rows), keep, true, cursor), limit)
      ensures rows == old(rows) + [view]
      ensures DistinctKeys(old(rows)) && Later(old(rows), view) ==> DistinctKeys(rows) && GrewLater(old(rows), rows)
    {
      var hits := Select(rows, keep, true, cursor);
      if |hits| > limit + 1 { hits := hits[..limit + 1]; }
      var next: Option<Key> := None;
      if |hits| > limit {
        next := Some(KeyOf(hits[limit - 1]));
        hits := hits[..limit];
      }
      page := Page(hits, next);
      if DistinctKeys(rows) && Later(rows, view) { LaterRowGrows(rows, view); }
      rows := rows + [view];
    }
  }
}
