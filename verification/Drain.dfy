/** Following next cursors to the end (apps/node/src/backend.ts), while the listing may change
    between requests. */
module Drain {
  import opened Wrappers
  import opened Paging

  const MAX_PAGES: nat := 10_000

  /** The listing that the k-th request is answered from. */
  type Listings<!V> = nat -> seq<Row<V>>

  /** One collection request: the Hub asks the store for one candidate more than fits a page. */
  function Answer<V>(rows: seq<Row<V>>, after: Option<Key>, pageLimit: nat, bytes: Bytes<V>): Result<Page<V>, Problem> {
    PageOf(First(RowsAfter(rows, after), pageLimit + 1), pageLimit, bytes)
  }

  /** How many rows that answer holds. */
  function Answered<V>(rows: seq<Row<V>>, after: Option<Key>, pageLimit: nat, bytes: Bytes<V>): nat {
    Taken(First(RowsAfter(rows, after), pageLimit + 1), pageLimit, bytes)
  }

  /** The rows of an answer are the first of the listing after the cursor; the answer names the
      last one as its next cursor exactly when some are left. */
  lemma AnswerIsAPrefix<V>(rows: seq<Row<V>>, after: Option<Key>, pageLimit: nat, bytes: Bytes<V>)
    requires pageLimit > 0
    ensures var all, n := RowsAfter(rows, after), Answered(rows, after, pageLimit, bytes);
            match Answer(rows, after, pageLimit, bytes)
            case Success(page) =>
              && n <= |all| && n <= pageLimit && page.items == Values(all[..n])
              && (page.next.Some? <==> n < |all|) && (page.next.Some? ==> n > 0 && page.next == Some(all[n - 1].key))
            case Failure(_) => all != []
  {
    var all := RowsAfter(rows, after);
    var candidates := First(all, pageLimit + 1);
    if all != [] {
      PagesFit(candidates, pageLimit, bytes);
      var n := Taken(candidates, pageLimit, bytes);
      if PageOf(candidates, pageLimit, bytes).Success? { assert candidates[..n] == all[..n]; }
    }
  }

  function Prepended<V>(rows: seq<Row<V>>, rest: Result<seq<Row<V>>, Problem>): Result<seq<Row<V>>, Problem> {
    if rest.Success? then Success(rows + rest.value) else rest
  }

  lemma PrependNothing<V>(rest: Result<seq<Row<V>>, Problem>)
    ensures Prepended([], rest) == rest
  {
    if rest.Success? { assert [] + rest.value == rest.value; }
  }

  lemma PrependTwice<V>(rows: seq<Row<V>>, more: seq<Row<V>>, rest: Result<seq<Row<V>>, Problem>)
    ensures Prepended(rows, Prepended(more, rest)) == Prepended(rows + more, rest)
  {
    if rest.Success? { assert rows + (more + rest.value) == rows + more + rest.value; }
  }

  /** The rows collected from request `k` on, if no answer fails. */
  function Collected<V>(
    listings: Listings<V>, bytes: Bytes<V>, after: Option<Key>, k: nat, pages: nat): Result<seq<Row<V>>, Problem>
    decreases pages
  {
    if pages == 0 then Failure(TooManyPages)
    else
      var answer := Answer(listings(k), after, PAGE_MAX_RECORDS, bytes);
      if answer.Failure? then Failure(answer.error)
      else
        AnswerIsAPrefix(listings(k), after, PAGE_MAX_RECORDS, bytes);
        var rows := RowsAfter(listings(k), after)[..Answered(listings(k), after, PAGE_MAX_RECORDS, bytes)];
        if answer.value.next.None? then Success(rows)
        else Prepended(rows, Collected(listings, bytes, answer.value.next, k + 1, pages - 1))
  }

  /** The number of requests made. */
  function Requests<V>(listings: Listings<V>, bytes: Bytes<V>, after: Option<Key>, k: nat, pages: nat): nat
    decreases pages
  {
    if pages == 0 then 0
    else
      var answer := Answer(listings(k), after, PAGE_MAX_RECORDS, bytes);
      if answer.Failure? || answer.value.next.None? then 1
      else 1 + Requests(listings, bytes, answer.value.next, k + 1, pages - 1)
  }

  ghost predicate AllSorted<V>(listings: Listings<V>) { forall k :: Sorted(listings(k)) }

  lemma NextIsPast<V>(rows: seq<Row<V>>, after: Option<Key>, pageLimit: nat, bytes: Bytes<V>)
    requires pageLimit > 0
    ensures var answer := Answer(rows, after, pageLimit, bytes);
            answer.Success? && answer.value.next.Some? ==> Past(after, answer.value.next.value)
  {
    hide Before, Past, Answer;
    AnswerIsAPrefix(rows, after, pageLimit, bytes);
    var all := RowsAfter(rows, after);
    if Answer(rows, after, pageLimit, bytes).Success? && Answered(rows, after, pageLimit, bytes) > 0 {
      AfterIsAFilter(rows, after, all[Answered(rows, after, pageLimit, bytes) - 1]);
    }
  }

  /** collectPages(); it also remembers every cursor it was given and fails on a repeated one. */
  method CollectPages<V>(listings: Listings<V>, bytes: Bytes<V>) returns (r: Result<seq<V>, Problem>)
    ensures var all := Collected(listings, bytes, None, 0, MAX_PAGES);
            r == if all.Success? then Success(Values(all.value)) else Failure(all.error)
  {
    hide Before, Past, Answer, Answered, RowsAfter, Collected, Prepended, Values;
    var items: seq<V> := [];
    var seen: set<Key> := {};
    var cursor: Option<Key> := None;
    ghost var rows: seq<Row<V>> := [];
    NoValues<V>();
    PrependNothing(Collected(listings, bytes, None, 0, MAX_PAGES));
    for pageNumber := 0 to MAX_PAGES
      invariant items == Values(rows)
      invariant forall key <- seen :: cursor.Some? && (key == cursor.value || Before(key, cursor.value))
      invariant Collected(listings, bytes, None, 0, MAX_PAGES) ==
                Prepended(rows, Collected(listings, bytes, cursor, pageNumber, MAX_PAGES - pageNumber))
    {
      OnePage(listings, bytes, cursor, pageNumber, MAX_PAGES - pageNumber, rows);
      var answer := Answer(listings(pageNumber), cursor, PAGE_MAX_RECORDS, bytes);
      if answer.Failure? { return Failure(answer.error); }
      var page := answer.value;
      items := items + page.items;
      if page.next.None? { return Success(items); }
      StillBehind(seen, cursor, page.next.value);
      if page.next.value in seen { return Failure(CursorStuck); }
      seen := seen + {page.next.value};
      rows := rows + PageRows(listings(pageNumber), cursor, bytes);
      cursor := page.next;
    }
    OutOfPages(listings, bytes, cursor, rows);
    r := Failure(TooManyPages);
  }

  lemma NoValues<V>()
    ensures Values<V>([]) == []
  {
  }

  lemma OutOfPages<V>(listings: Listings<V>, bytes: Bytes<V>, cursor: Option<Key>, rows: seq<Row<V>>)
    ensures Prepended(rows, Collected(listings, bytes, cursor, MAX_PAGES, 0)) == Failure(TooManyPages)
  {
  }

  /** The rows of one answer. */
  ghost function PageRows<V>(rows: seq<Row<V>>, after: Option<Key>, bytes: Bytes<V>): seq<Row<V>> {
    First(RowsAfter(rows, after), Answered(rows, after, PAGE_MAX_RECORDS, bytes))
  }

  /** What one request adds to the rows collected before it. */
  lemma OnePage<V>(listings: Listings<V>, bytes: Bytes<V>, cursor: Option<Key>, k: nat, pages: nat, rows: seq<Row<V>>)
    requires pages > 0
    ensures var answer, whole := Answer(listings(k), cursor, PAGE_MAX_RECORDS, bytes),
                                 Prepended(rows, Collected(listings, bytes, cursor, k, pages));
            if answer.Failure? then whole == Failure(answer.error)
            else
              var more := rows + PageRows(listings(k), cursor, bytes);
              && Values(more) == Values(rows) + answer.value.items
              && (if answer.value.next.None? then whole == Success(more)
                  else
                    && Past(cursor, answer.value.next.value)
                    && whole == Prepended(more, Collected(listings, bytes, answer.value.next, k + 1, pages - 1)))
  {
    hide Before, Past, Answer, Answered, RowsAfter;
    AnswerIsAPrefix(listings(k), cursor, PAGE_MAX_RECORDS, bytes);
    NextIsPast(listings(k), cursor, PAGE_MAX_RECORDS, bytes);
    var answer := Answer(listings(k), cursor, PAGE_MAX_RECORDS, bytes);
    if answer.Success? {
      var page := PageRows(listings(k), cursor, bytes);
      assert page == RowsAfter(listings(k), cursor)[..Answered(listings(k), cursor, PAGE_MAX_RECORDS, bytes)];
      assert Values(rows + page) == Values(rows) + Values(page);
      PrependTwice(rows, page, Collected(listings, bytes, answer.value.next, k + 1, pages - 1));
    }
  }

  lemma StillBehind(seen: set<Key>, cursor: Option<Key>, next: Key)
    requires forall key <- seen :: cursor.Some? && (key == cursor.value || Before(key, cursor.value))
    requires Past(cursor, next)
    ensures forall key <- seen :: Before(key, next)
    ensures next !in seen
  {
    hide Before;
    BeforeIsIrreflexive(next);
    forall key <- seen ensures Before(key, next) {
      if key != cursor.value { BeforeIsTransitive(key, cursor.value, next); }
    }
  }

  // ----- what a drain returns -----

  /** One request's part of a drain: some first rows, and then the rest from the last of them. */
  lemma DrainUnfolds<V>(listings: Listings<V>, bytes: Bytes<V>, after: Option<Key>, k: nat, pages: nat)
    requires pages > 0 && Collected(listings, bytes, after, k, pages).Success?
    ensures var all, n := RowsAfter(listings(k), after), Answered(listings(k), after, PAGE_MAX_RECORDS, bytes);
            && n <= |all|
            && (if n == |all| then
                  && Collected(listings, bytes, after, k, pages).value == all
                  && Requests(listings, bytes, after, k, pages) == 1
                else
                  && n > 0
                  && var next := Some(all[n - 1].key);
                     && Collected(listings, bytes, next, k + 1, pages - 1).Success?
                     && Collected(listings, bytes, after, k, pages).value ==
                        all[..n] + Collected(listings, bytes, next, k + 1, pages - 1).value
                     && Requests(listings, bytes, after, k, pages) ==
                        1 + Requests(listings, bytes, next, k + 1, pages - 1))
  {
    hide Answer, Answered, RowsAfter;
    AnswerIsAPrefix(listings(k), after, PAGE_MAX_RECORDS, bytes);
    var all, n := RowsAfter(listings(k), after), Answered(listings(k), after, PAGE_MAX_RECORDS, bytes);
    assert n == |all| ==> all[..n] == all;
  }

  /** A drain returns rows in strict key order, so none twice. */
  lemma {:induction false} DrainIsSorted<V>(listings: Listings<V>, bytes: Bytes<V>, after: Option<Key>, k: nat,
                                            pages: nat)
    requires AllSorted(listings) && Collected(listings, bytes, after, k, pages).Success?
    ensures Sorted(Collected(listings, bytes, after, k, pages).value)
    ensures forall row <- Collected(listings, bytes, after, k, pages).value :: Past(after, row.key)
    decreases pages
  {
    hide Collected, Requests, Before, Past, RowsAfter, Answered;
    if pages == 0 {
      NoPagesFail(listings, bytes, after, k);
    } else {
      DrainUnfolds(listings, bytes, after, k, pages);
      var all, n := RowsAfter(listings(k), after), Answered(listings(k), after, PAGE_MAX_RECORDS, bytes);
      AfterKeepsSorted(listings(k), after);
      forall row | row in all ensures Past(after, row.key) { AfterIsAFilter(listings(k), after, row); }
      if n < |all| {
        var next := all[n - 1].key;
        DrainIsSorted(listings, bytes, Some(next), k + 1, pages - 1);
        var rest := Collected(listings, bytes, Some(next), k + 1, pages - 1).value;
        assert Past(after, all[n - 1].key);
        forall row | row in rest ensures Past(after, row.key) && Before(next, row.key) {
          FurtherPast(after, next, row.key);
        }
        SortedJoin(all[..n], rest, next);
      }
    }
  }

  lemma NoPagesFail<V>(listings: Listings<V>, bytes: Bytes<V>, after: Option<Key>, k: nat)
    ensures Collected(listings, bytes, after, k, 0).Failure?
  {
  }

  lemma FurtherPast(after: Option<Key>, next: Key, key: Key)
    requires Past(after, next) && Past(Some(next), key)
    ensures Past(after, key) && Before(next, key)
  {
    if after.Some? { BeforeIsTransitive(after.value, next, key); }
  }

  lemma SortedJoin<V>(left: seq<Row<V>>, right: seq<Row<V>>, middle: Key)
    requires Sorted(left) && Sorted(right) && left != [] && left[|left| - 1].key == middle
    requires forall row <- right :: Before(middle, row.key)
    ensures Sorted(left + right)
  {
    hide Before;
    var all := left + right;
    forall i, j | 0 <= i < j < |all| ensures Before(all[i].key, all[j].key) {
      if i < |left| <= j {
        assert all[j] == right[j - |left|] && right[j - |left|] in right;
        if i < |left| - 1 { BeforeIsTransitive(all[i].key, middle, all[j].key); }
      }
    }
  }

  ghost predicate HasKey<V>(rows: seq<Row<V>>, key: Key) { exists i :: 0 <= i < |rows| && rows[i].key == key }

  lemma KeyOf<V>(rows: seq<Row<V>>, row: Row<V>)
    requires row in rows
    ensures HasKey(rows, row.key)
  {
    var i :| 0 <= i < |rows| && rows[i] == row;
  }

  lemma RowOf<V>(rows: seq<Row<V>>, key: Key) returns (row: Row<V>)
    requires HasKey(rows, key)
    ensures row in rows && row.key == key
  {
    var i :| 0 <= i < |rows| && rows[i].key == key;
    row := rows[i];
  }

  /** A key that is listed for every request, whatever becomes of its row's value and while other
      rows come and go, is returned. */
  lemma {:induction false} DrainMissesNoKey<V>(
    listings: Listings<V>, bytes: Bytes<V>, after: Option<Key>, k: nat, pages: nat, key: Key)
    requires AllSorted(listings) && Collected(listings, bytes, after, k, pages).Success?
    requires forall j :: k <= j < k + Requests(listings, bytes, after, k, pages) ==> HasKey(listings(j), key)
    requires Past(after, key)
    ensures HasKey(Collected(listings, bytes, after, k, pages).value, key)
    decreases pages
  {
    hide Collected, Requests, Before, Past, RowsAfter, Answered, HasKey;
    if pages == 0 {
      NoPagesFail(listings, bytes, after, k);
    } else {
      DrainUnfolds(listings, bytes, after, k, pages);
      RequestsArePositive(listings, bytes, after, k, pages);
      var all, n := RowsAfter(listings(k), after), Answered(listings(k), after, PAGE_MAX_RECORDS, bytes);
      var row := RowOf(listings(k), key);
      AfterIsAFilter(listings(k), after, row);
      if row in all[..n] || n == |all| {
        KeyOf(Collected(listings, bytes, after, k, pages).value, row);
      } else {
        AfterKeepsSorted(listings(k), after);
        LaterThanTheCut(all, n, row);
        var next := Some(all[n - 1].key);
        DrainMissesNoKey(listings, bytes, next, k + 1, pages - 1, key);
        var later := RowOf(Collected(listings, bytes, next, k + 1, pages - 1).value, key);
        KeyOf(Collected(listings, bytes, after, k, pages).value, later);
      }
    }
  }

  /** A key listed for every request of a drain is returned exactly once, with a value that it had
      for one of the requests. */
  lemma DrainReturnsEachKeyOnce<V>(
    listings: Listings<V>, bytes: Bytes<V>, after: Option<Key>, k: nat, pages: nat, key: Key)
    returns (at: nat, request: nat)
    requires AllSorted(listings) && Collected(listings, bytes, after, k, pages).Success?
    requires forall j :: k <= j < k + Requests(listings, bytes, after, k, pages) ==> HasKey(listings(j), key)
    requires Past(after, key)
    ensures var rows := Collected(listings, bytes, after, k, pages).value;
            && at < |rows| && rows[at].key == key && (forall i :: 0 <= i < |rows| && rows[i].key == key ==> i == at)
            && k <= request < k + Requests(listings, bytes, after, k, pages) && rows[at] in listings(request)
  {
    hide Collected, Requests, Before, Past;
    DrainMissesNoKey(listings, bytes, after, k, pages, key);
    DrainIsSorted(listings, bytes, after, k, pages);
    var rows := Collected(listings, bytes, after, k, pages).value;
    at :| at < |rows| && rows[at].key == key;
    BeforeIsIrreflexive(key);
    DrainInventsNothing(listings, bytes, after, k, pages, rows[at]);
    request :| k <= request < k + Requests(listings, bytes, after, k, pages) && rows[at] in listings(request);
  }

  /** In particular a row that stays as it is throughout is returned as it is. */
  lemma DrainMissesNothing<V>(listings: Listings<V>, bytes: Bytes<V>, after: Option<Key>, k: nat, pages: nat,
                              row: Row<V>)
    requires AllSorted(listings) && Collected(listings, bytes, after, k, pages).Success?
    requires forall j :: k <= j < k + Requests(listings, bytes, after, k, pages) ==> row in listings(j)
    requires Past(after, row.key)
    ensures row in Collected(listings, bytes, after, k, pages).value
  {
    hide Collected, Requests, Before, Past, HasKey;
    forall j | k <= j < k + Requests(listings, bytes, after, k, pages) ensures HasKey(listings(j), row.key) {
      KeyOf(listings(j), row);
    }
    var at, request := DrainReturnsEachKeyOnce(listings, bytes, after, k, pages, row.key);
    OneRowPerKey(listings(request), Collected(listings, bytes, after, k, pages).value[at], row);
  }

  lemma OneRowPerKey<V>(rows: seq<Row<V>>, a: Row<V>, b: Row<V>)
    requires Sorted(rows) && a in rows && b in rows && a.key == b.key
    ensures a == b
  {
    hide Before;
    BeforeIsIrreflexive(a.key);
    var i :| 0 <= i < |rows| && rows[i] == a;
    var j :| 0 <= j < |rows| && rows[j] == b;
  }

  lemma LaterThanTheCut<V>(all: seq<Row<V>>, n: nat, row: Row<V>)
    requires Sorted(all) && 0 < n <= |all| && row in all && row !in all[..n]
    ensures Past(Some(all[n - 1].key), row.key)
  {
    hide Before;
    assert all == all[..n] + all[n..];
    var i :| 0 <= i < |all[n..]| && all[n..][i] == row;
    assert all[n + i] == row;
  }

  /** A drain returns only rows that were listed for one of its requests. */
  lemma {:induction false} DrainInventsNothing<V>(
    listings: Listings<V>, bytes: Bytes<V>, after: Option<Key>, k: nat, pages: nat, row: Row<V>)
    requires Collected(listings, bytes, after, k, pages).Success?
             && row in Collected(listings, bytes, after, k, pages).value
    ensures exists j :: k <= j < k + Requests(listings, bytes, after, k, pages) && row in listings(j)
    decreases pages
  {
    hide Collected, Requests, Before, Past, RowsAfter, Answered;
    if pages == 0 {
      NoPagesFail(listings, bytes, after, k);
    } else {
      DrainUnfolds(listings, bytes, after, k, pages);
      var all, n := RowsAfter(listings(k), after), Answered(listings(k), after, PAGE_MAX_RECORDS, bytes);
      if row in all {
        AfterIsAFilter(listings(k), after, row);
        RequestsArePositive(listings, bytes, after, k, pages);
        assert row in listings(k);
      } else {
        DrainInventsNothing(listings, bytes, Some(all[n - 1].key), k + 1, pages - 1, row);
      }
    }
  }

  lemma RequestsArePositive<V>(listings: Listings<V>, bytes: Bytes<V>, after: Option<Key>, k: nat, pages: nat)
    requires pages > 0
    ensures Requests(listings, bytes, after, k, pages) > 0
  {
  }

  /** Each record fits a page of its own, with or without a next cursor. */
  ghost predicate EachFits<V>(rows: seq<Row<V>>, bytes: Bytes<V>) {
    forall row <- rows ::
      bytes([row.value], Some(row.key)) <= PAGE_MAX_BYTES && bytes([row.value], None) <= PAGE_MAX_BYTES
  }

  lemma AloneFits<V>(rows: seq<Row<V>>, after: Option<Key>, pageLimit: nat, bytes: Bytes<V>)
    requires EachFits(rows, bytes) && pageLimit > 0
    ensures Answer(rows, after, pageLimit, bytes).Success?
    ensures RowsAfter(rows, after) != [] ==> Answered(rows, after, pageLimit, bytes) > 0
  {
    hide Before, Past;
    var all := RowsAfter(rows, after);
    var candidates := First(all, pageLimit + 1);
    if all != [] {
      AfterIsAFilter(rows, after, all[0]);
      PagesFit(candidates, pageLimit, bytes);
      assert Values(candidates[..1]) == [candidates[0].value];
    }
  }

  /** On a listing that does not change, and whose records fit, a drain returns the listing and
      makes at most one request a row. */
  lemma {:induction false} StillDrainIsTheListing<V>(
    listings: Listings<V>, rows: seq<Row<V>>, bytes: Bytes<V>, after: Option<Key>, k: nat, pages: nat)
    requires Sorted(rows) && EachFits(rows, bytes) && forall j :: listings(j) == rows
    requires pages >= 1 && pages >= |RowsAfter(rows, after)|
    ensures Collected(listings, bytes, after, k, pages) == Success(RowsAfter(rows, after))
    ensures Requests(listings, bytes, after, k, pages) <= 1
            || Requests(listings, bytes, after, k, pages) <= |RowsAfter(rows, after)|
    decreases pages
  {
    hide Before, Past, RowsAfter, Answer, Answered, EachFits;
    var all, n := RowsAfter(rows, after), Answered(rows, after, PAGE_MAX_RECORDS, bytes);
    assert listings(k) == rows;
    AloneFits(rows, after, PAGE_MAX_RECORDS, bytes);
    AnswerIsAPrefix(rows, after, PAGE_MAX_RECORDS, bytes);
    if n < |all| {
      AfterComposes(rows, after, n);
      StillDrainIsTheListing(listings, rows, bytes, Some(all[n - 1].key), k + 1, pages - 1);
      assert all[..n] + all[n..] == all;
    } else {
      assert all[..n] == all;
    }
  }
}
