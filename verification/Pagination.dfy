/** Keyset pagination: pages read one by one from a table that changes between reads. */
module Pagination {
  import opened Base
  import opened Orders

  /** The ordering columns, created_at and id, which a cursor carries. */
  datatype Key = Key(createdAt: int, id: nat)

  predicate Before(a: Key, b: Key) { a.createdAt < b.createdAt || (a.createdAt == b.createdAt && a.id < b.id) }

  lemma KeyOrder()
    ensures StrictOrder(Before)
  {
  }

  /** A row of the table behind its key; what a filter looks at. */
  datatype AssetRow = AssetRow(assetType: string, lifecycle: string, displayName: string)

  type Table = map<Key, AssetRow>

  type RowFilter = AssetRow -> bool

  function Visible(table: Table, matching: RowFilter): set<Key> { set k | k in table && matching(table[k]) }

  const MAX_PAGE_SIZE := 200

  function Clamp(limit: int): (n: nat)
    ensures 1 <= limit <= MAX_PAGE_SIZE ==> n == limit
    ensures limit < 1 ==> n == 1
    ensures limit > MAX_PAGE_SIZE ==> n == MAX_PAGE_SIZE
  {
    var capped := if limit < MAX_PAGE_SIZE then limit else MAX_PAGE_SIZE;
    if capped > 1 then capped else 1
  }

  function After(keys: set<Key>, cursor: Option<Key>): set<Key> {
    set k | k in keys && (cursor.None? || Before(cursor.value, k))
  }

  function InOrder(keys: set<Key>): (r: seq<Key>)
    ensures forall k :: k in r <==> k in keys
    ensures |r| == |keys|
  {
    KeyOrder();
    Sorted(Before, keys)
  }

  datatype Page = Page(rows: seq<Key>, next: Option<Key>)

  /** ORDER BY ... LIMIT n + 1: one row more than asked for is fetched, to know whether there is a next page. */
  function Cut(found: seq<Key>, n: nat): Page
    requires n >= 1
  {
    var rows := if |found| > n + 1 then found[..n + 1] else found;
    if |rows| > n then Page(rows[..n], Some(rows[n - 1])) else Page(rows, None)
  }

  /** AssetService.list_assets. */
  function ListAssets(table: Table, matching: RowFilter, limit: int, cursor: Option<Key>): Page {
    Cut(InOrder(After(Visible(table, matching), cursor)), Clamp(limit))
  }

  // ---- One page ----

  predicate UpTo(k: Key, bound: Option<Key>) { bound.Some? && (k == bound.value || Before(k, bound.value)) }

  lemma CutExactly(found: seq<Key>, n: nat)
    requires n >= 1 && Ascending(Before, found)
    ensures var p := Cut(found, n);
      && Ascending(Before, p.rows) && |p.rows| <= n
      && (forall k :: k in p.rows <==> k in found && (p.next.None? || UpTo(k, p.next)))
      && (p.next.Some? ==> |p.rows| == n && p.rows[n - 1] == p.next.value)
  {
    var p := Cut(found, n);
    if |found| > n {
      assert p.rows == found[..n];
      forall k ensures k in p.rows <==> k in found && UpTo(k, p.next) {
        if k in found && UpTo(k, p.next) {
          var i :| 0 <= i < |found| && found[i] == k;
          assert i <= n - 1 || Before(found[n - 1], found[i]);
          assert i <= n - 1 ==> p.rows[i] == k;
        }
        if k in p.rows {
          var i :| 0 <= i < n && p.rows[i] == k;
          assert found[i] == k && (i == n - 1 || Before(found[i], found[n - 1]));
        }
      }
    }
  }

  lemma InOrderAscends(keys: set<Key>)
    ensures Ascending(Before, InOrder(keys))
  {
    KeyOrder();
    SortedAscends(Before, keys);
  }

  /** A page holds, in order and once each, the visible rows after its cursor, up to the cursor it hands on; all of them
      when it hands on none. A page with a next cursor is full. */
  lemma PageExactly(table: Table, matching: RowFilter, limit: int, cursor: Option<Key>)
    ensures var p := ListAssets(table, matching, limit, cursor);
      && Ascending(Before, p.rows) && |p.rows| <= Clamp(limit)
      && (forall k :: k in p.rows <==>
            k in Visible(table, matching) && (cursor.None? || Before(cursor.value, k)) && (p.next.None? || UpTo(k, p.next)))
      && (p.next.Some? ==> |p.rows| == Clamp(limit) && p.rows[Clamp(limit) - 1] == p.next.value)
  {
    var keys := After(Visible(table, matching), cursor);
    InOrderAscends(keys);
    CutExactly(InOrder(keys), Clamp(limit));
  }

  // ---- Following next_cursor ----

  datatype Walked = Walked(collected: seq<Key>, cursor: Option<Key>, finished: bool)

  /** A client that follows next_cursor until it is null; each page is read from the table as it is by then. */
  function Walk(tables: seq<Table>, matching: RowFilter, limit: int): Walked {
    if tables == [] then Walked([], None, false)
    else
      var before := Walk(tables[..|tables| - 1], matching, limit);
      if before.finished then before
      else
        var page := ListAssets(tables[|tables| - 1], matching, limit, before.cursor);
        Walked(before.collected + page.rows, page.next, page.next.None?)
  }

  /** The row is there, and matches, whenever a page is read. */
  ghost predicate PresentThroughout(k: Key, tables: seq<Table>, matching: RowFilter) {
    forall i :: 0 <= i < |tables| ==> k in Visible(tables[i], matching)
  }

  /** What is collected is in order and ends at the cursor; a walk that goes on has collected only full pages. */
  ghost predicate WalkInv(w: Walked, pages: nat, n: nat) {
    && Ascending(Before, w.collected)
    && (w.cursor.Some? ==> w.collected != [] && w.collected[|w.collected| - 1] == w.cursor.value)
    && (!w.finished ==> |w.collected| == pages * n && (w.cursor.None? ==> w.collected == []))
  }

  lemma AscendingAppend(a: seq<Key>, b: seq<Key>)
    requires Ascending(Before, a) && Ascending(Before, b)
    requires forall k :: a != [] && k in b ==> Before(a[|a| - 1], k)
    ensures Ascending(Before, a + b)
  {
    var c := a + b;
    forall i, j | 0 <= i < j < |c| ensures Before(c[i], c[j]) {
      if i < |a| <= j {
        assert c[j] in b;
        assert i == |a| - 1 || Before(a[i], a[|a| - 1]);
      }
    }
  }

  lemma WalkOn(w: Walked, pages: nat, n: nat, page: Page)
    requires WalkInv(w, pages, n) && !w.finished && n >= 1
    requires Ascending(Before, page.rows) && forall k :: k in page.rows ==> w.cursor.None? || Before(w.cursor.value, k)
    requires page.next.Some? ==> |page.rows| == n && page.rows[n - 1] == page.next.value
    ensures WalkInv(Walked(w.collected + page.rows, page.next, page.next.None?), pages + 1, n)
  {
    AscendingAppend(w.collected, page.rows);
    assert (pages + 1) * n == pages * n + n;
  }

  lemma {:induction false} WalkKeeps(tables: seq<Table>, matching: RowFilter, limit: int)
    ensures WalkInv(Walk(tables, matching, limit), |tables|, Clamp(limit))
  {
    if tables == [] {
      assert 0 * Clamp(limit) == 0;
    } else {
      var front, last := tables[..|tables| - 1], tables[|tables| - 1];
      WalkKeeps(front, matching, limit);
      var before := Walk(front, matching, limit);
      if !before.finished {
        PageExactly(last, matching, limit, before.cursor);
        WalkOn(before, |front|, Clamp(limit), ListAssets(last, matching, limit, before.cursor));
      }
    }
  }

  lemma {:induction false} WalkFinds(tables: seq<Table>, matching: RowFilter, limit: int, k: Key)
    requires PresentThroughout(k, tables, matching)
    ensures var w := Walk(tables, matching, limit); w.finished || UpTo(k, w.cursor) ==> k in w.collected
  {
    if tables != [] {
      var front, last := tables[..|tables| - 1], tables[|tables| - 1];
      assert forall i | 0 <= i < |front| :: front[i] == tables[i];
      WalkFinds(front, matching, limit, k);
      WalkKeeps(front, matching, limit);
      var before := Walk(front, matching, limit);
      if !before.finished {
        KeyOrder();
        PageExactly(last, matching, limit, before.cursor);
        assert k in Visible(last, matching);
        assert before.cursor.Some? ==> UpTo(k, before.cursor) || Before(before.cursor.value, k);
      }
    }
  }

  lemma {:induction false} WalkInvents(tables: seq<Table>, matching: RowFilter, limit: int, k: Key)
    requires k in Walk(tables, matching, limit).collected
    ensures exists i :: 0 <= i < |tables| && k in Visible(tables[i], matching)
  {
    if tables != [] {
      var front, last := tables[..|tables| - 1], tables[|tables| - 1];
      var before := Walk(front, matching, limit);
      if k in before.collected {
        WalkInvents(front, matching, limit, k);
        var i :| 0 <= i < |front| && k in Visible(front[i], matching);
        assert tables[i] == front[i];
      } else {
        PageExactly(last, matching, limit, before.cursor);
        assert tables[|tables| - 1] == last;
      }
    }
  }

  /** Whatever happens to the table between pages, following next_cursor to null returns rows in strictly ascending
      order, so none twice; only rows that were there; and every matching row that was there throughout, exactly once. */
  lemma PagesUnderChange(tables: seq<Table>, matching: RowFilter, limit: int)
    ensures var w := Walk(tables, matching, limit);
      && (forall i, j :: 0 <= i < j < |w.collected| ==>
            Before(w.collected[i], w.collected[j]) && w.collected[i] != w.collected[j])
      && (forall k :: k in w.collected ==> exists i :: 0 <= i < |tables| && k in Visible(tables[i], matching))
      && (w.finished ==> forall k :: PresentThroughout(k, tables, matching) ==> k in w.collected)
  {
    WalkKeeps(tables, matching, limit);
    var w := Walk(tables, matching, limit);
    forall k | k in w.collected ensures exists i :: 0 <= i < |tables| && k in Visible(tables[i], matching) {
      WalkInvents(tables, matching, limit, k);
    }
    forall k | PresentThroughout(k, tables, matching) && w.finished ensures k in w.collected {
      WalkFinds(tables, matching, limit, k);
    }
  }

  /** Over a table that does not change, the pages are the sorted filtered list, cut up. */
  lemma PagesOfOneTable(table: Table, matching: RowFilter, limit: int, pages: nat)
    requires Walk(seq(pages, _ => table), matching, limit).finished
    ensures Walk(seq(pages, _ => table), matching, limit).collected == InOrder(Visible(table, matching))
  {
    var tables := seq(pages, _ => table);
    PagesUnderChange(tables, matching, limit);
    WalkKeeps(tables, matching, limit);
    var w := Walk(tables, matching, limit);
    KeyOrder();
    SortedAscends(Before, Visible(table, matching));
    forall k ensures k in w.collected <==> k in InOrder(Visible(table, matching)) {
      assert k in Visible(table, matching) ==> PresentThroughout(k, tables, matching);
    }
    AscendingUnique(Before, w.collected, InOrder(Visible(table, matching)));
  }

  lemma {:induction false} AscendingIsDistinct(s: seq<Key>, keys: set<Key>)
    requires Ascending(Before, s) && forall k :: k in s ==> k in keys
    ensures |s| <= |keys|
  {
    if s != [] {
      var front, last := s[..|s| - 1], s[|s| - 1];
      forall k | k in front ensures k in keys - {last} {
        var i :| 0 <= i < |front| && front[i] == k;
        assert Before(s[i], s[|s| - 1]);
        assert k in s;
      }
      AscendingIsDistinct(front, keys - {last});
    }
  }

  /** The walk ends: when only finitely many rows ever match, at most one page more than they fill is read. */
  lemma PagesEnd(tables: seq<Table>, matching: RowFilter, limit: int, ever: set<Key>)
    requires forall i :: 0 <= i < |tables| ==> Visible(tables[i], matching) <= ever
    requires |tables| * Clamp(limit) > |ever|
    ensures Walk(tables, matching, limit).finished
  {
    WalkKeeps(tables, matching, limit);
    var w := Walk(tables, matching, limit);
    forall k | k in w.collected ensures k in ever {
      WalkInvents(tables, matching, limit, k);
    }
    AscendingIsDistinct(w.collected, ever);
  }

  // ---- Cursors ----

  /** The renderings a cursor is made of: a timestamp's, an id's, and the text's in base 64; each with its inverse. */
  datatype Codec = Codec(
    stamp: int -> string, readStamp: string -> Option<int>,
    ident: nat -> string, readIdent: string -> Option<nat>,
    wrap: string -> string, unwrap: string -> Option<string>)

  ghost predicate Inverts(c: Codec) {
    && (forall t :: c.readStamp(c.stamp(t)) == Some(t) && '|' !in c.stamp(t))
    && (forall n: nat :: c.readIdent(c.ident(n)) == Some(n))
    && (forall s :: c.unwrap(c.wrap(s)) == Some(s))
  }

  function EncodeCursor(c: Codec, k: Key): string { c.wrap(c.stamp(k.createdAt) + "|" + c.ident(k.id)) }

  /** str.split(sep, 1): what is before the first separator and what is after it. */
  function SplitOnce(s: string, sep: char): Option<(string, string)> {
    if s == "" then None
    else if s[0] == sep then Some(("", s[1..]))
    else
      match SplitOnce(s[1..], sep)
      case None => None
      case Some((left, right)) => Some(([s[0]] + left, right))
  }

  /** The key a cursor names; None where the service answers that the cursor is malformed. */
  function DecodeCursor(c: Codec, cursor: string): Option<Key> {
    match c.unwrap(cursor)
    case None => None
    case Some(raw) =>
      match SplitOnce(raw, '|')
      case None => None
      case Some((left, right)) =>
        match (c.readStamp(left), c.readIdent(right))
        case (Some(t), Some(n)) => Some(Key(t, n))
        case _ => None
  }

  lemma {:induction false} SplitAtFirst(left: string, right: string, sep: char)
    requires sep !in left
    ensures SplitOnce(left + [sep] + right, sep) == Some((left, right))
  {
    var s := left + [sep] + right;
    if left == "" {
      assert s[1..] == right;
    } else {
      assert s[1..] == left[1..] + [sep] + right;
      SplitAtFirst(left[1..], right, sep);
      assert [left[0]] + left[1..] == left;
    }
  }

  /** A cursor names the row it was made from. */
  lemma CursorRoundTrip(c: Codec, k: Key)
    requires Inverts(c)
    ensures DecodeCursor(c, EncodeCursor(c, k)) == Some(k)
  {
    SplitAtFirst(c.stamp(k.createdAt), c.ident(k.id), '|');
    assert c.stamp(k.createdAt) + "|" == c.stamp(k.createdAt) + ['|'];
  }
}
