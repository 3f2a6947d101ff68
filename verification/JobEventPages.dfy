/** The Node's jobEvents() (apps/node/src/backend.ts): one listing put together from bounded
    pages, each answered from the job's log as it is by then. */
module JobEventPages {
  import opened Wrappers
  import opened Paging
  import opened Drain

  /** listJobEvents(): the first events of the log after a cursor. */
  function ListJobEvents<V>(log: seq<Row<V>>, after: Option<Key>, limit: nat): seq<Row<V>> {
    First(RowsAfter(log, after), limit)
  }

  /** A job's log only grows, at its end. */
  ghost predicate AppendOnly<V>(logs: Listings<V>) {
    forall j, k :: 0 <= j <= k ==> logs(j) <= logs(k)
  }

  ghost predicate AllFit<V>(logs: Listings<V>, bytes: Bytes<V>) { forall k :: EachFits(logs(k), bytes) }

  lemma {:induction false} AfterGrows<V>(rows: seq<Row<V>>, more: seq<Row<V>>, after: Option<Key>)
    requires rows <= more
    ensures RowsAfter(rows, after) <= RowsAfter(more, after)
  {
    if rows != [] { AfterGrows(rows[1..], more[1..], after); }
  }

  lemma PageError<V>(log: seq<Row<V>>, cursor: Option<Key>, pageLimit: nat, bytes: Bytes<V>)
    ensures Answer(log, cursor, pageLimit, bytes).Failure? ==>
              Answer(log, cursor, pageLimit, bytes).error == RecordTooLarge
  {
  }

  /** The events read from request `k` on, when `limit` more are wanted. */
  function Read<V>(
    logs: Listings<V>, bytes: Bytes<V>, after: Option<Key>, limit: nat, k: nat): Result<seq<Row<V>>, Problem>
    decreases limit
  {
    if limit == 0 then Success([])
    else
      var pageLimit := Min(PAGE_MAX_RECORDS, limit);
      var answer := Answer(logs(k), after, pageLimit, bytes);
      if answer.Failure? then Failure(answer.error)
      else
        AnswerIsAPrefix(logs(k), after, pageLimit, bytes);
        var n := Answered(logs(k), after, pageLimit, bytes);
        var rows := RowsAfter(logs(k), after)[..n];
        if answer.value.next.None? || n == limit then Success(rows)
        else Prepended(rows, Read(logs, bytes, answer.value.next, limit - n, k + 1))
  }

  /** The number of requests that takes. */
  function ReadRequests<V>(logs: Listings<V>, bytes: Bytes<V>, after: Option<Key>, limit: nat, k: nat): nat
    decreases limit
  {
    if limit == 0 then 0
    else
      var pageLimit := Min(PAGE_MAX_RECORDS, limit);
      var answer := Answer(logs(k), after, pageLimit, bytes);
      if answer.Failure? then 1
      else
        AnswerIsAPrefix(logs(k), after, pageLimit, bytes);
        var n := Answered(logs(k), after, pageLimit, bytes);
        if answer.value.next.None? || n == limit then 1
        else 1 + ReadRequests(logs, bytes, answer.value.next, limit - n, k + 1)
  }

  /** The loop with its check for repeated cursors, which never fails. */
  method JobEvents<V>(logs: Listings<V>, bytes: Bytes<V>, after: Option<Key>, limit: int)
    returns (r: Result<seq<V>, Problem>)
    ensures limit < 1 || limit > 500 ==> r == Failure(InvalidInput)
    ensures 1 <= limit <= 500 ==>
              var read := Read(logs, bytes, after, limit, 0);
              r == if read.Success? then Success(Values(read.value)) else Failure(read.error)
  {
    hide Before, Past, Answer, Answered, RowsAfter, Prepended, Values, Read;
    if limit < 1 || limit > 500 { return Failure(InvalidInput); }
    var events: seq<V> := [];
    var seen: set<Key> := {};
    var cursor := after;
    ghost var rows: seq<Row<V>> := [];
    var request := 0;
    NoValues<V>();
    PrependNothing(Read(logs, bytes, after, limit, 0));
    while |events| < limit
      invariant |events| <= limit && events == Values(rows)
      invariant Read(logs, bytes, after, limit, 0) ==
                Prepended(rows, Read(logs, bytes, cursor, limit - |events|, request))
      invariant forall key <- seen :: cursor.Some? && (key == cursor.value || Before(key, cursor.value))
      decreases limit - |events|
    {
      var pageLimit := Min(PAGE_MAX_RECORDS, limit - |events|);
      OnePage(logs, bytes, cursor, limit - |events|, request, rows);
      var answer := Answer(logs(request), cursor, pageLimit, bytes);
      if answer.Failure? { return Failure(answer.error); }
      var page := answer.value;
      events := events + page.items;
      if page.next.None? || |events| == limit { return Success(events); }
      StillBehind(seen, cursor, page.next.value);
      if page.next.value in seen { return Failure(CursorStuck); }
      seen := seen + {page.next.value};
      rows := rows + PageRows(logs(request), cursor, pageLimit, bytes);
      cursor := page.next;
      request := request + 1;
    }
    NothingMore(logs, bytes, cursor, request, rows);
    r := Success(events);
  }

  lemma NothingMore<V>(logs: Listings<V>, bytes: Bytes<V>, cursor: Option<Key>, k: nat, rows: seq<Row<V>>)
    ensures Prepended(rows, Read(logs, bytes, cursor, 0, k)) == Success(rows)
  {
    assert rows + [] == rows;
  }

  ghost function PageRows<V>(log: seq<Row<V>>, after: Option<Key>, pageLimit: nat, bytes: Bytes<V>): seq<Row<V>> {
    First(RowsAfter(log, after), Answered(log, after, pageLimit, bytes))
  }

  /** What one request adds to the events read before it. */
  lemma OnePage<V>(logs: Listings<V>, bytes: Bytes<V>, cursor: Option<Key>, limit: nat, k: nat, rows: seq<Row<V>>)
    requires limit > 0
    ensures var pageLimit := Min(PAGE_MAX_RECORDS, limit);
            var answer, whole :=
              Answer(logs(k), cursor, pageLimit, bytes), Prepended(rows, Read(logs, bytes, cursor, limit, k));
            if answer.Failure? then whole == Failure(answer.error)
            else
              var more, n := rows + PageRows(logs(k), cursor, pageLimit, bytes), |answer.value.items|;
              && Values(more) == Values(rows) + answer.value.items && n <= limit && (answer.value.next.Some? ==> n > 0)
              && (if answer.value.next.None? || n == limit then whole == Success(more)
                  else
                    && Past(cursor, answer.value.next.value)
                    && whole == Prepended(more, Read(logs, bytes, answer.value.next, limit - n, k + 1)))
  {
    hide Before, Past, Answer, Answered, RowsAfter;
    var pageLimit := Min(PAGE_MAX_RECORDS, limit);
    AnswerIsAPrefix(logs(k), cursor, pageLimit, bytes);
    NextIsPast(logs(k), cursor, pageLimit, bytes);
    var answer := Answer(logs(k), cursor, pageLimit, bytes);
    if answer.Success? {
      var page, n := PageRows(logs(k), cursor, pageLimit, bytes), Answered(logs(k), cursor, pageLimit, bytes);
      assert page == RowsAfter(logs(k), cursor)[..n] && |answer.value.items| == n;
      assert Values(rows + page) == Values(rows) + Values(page);
      PrependTwice(rows, page, Read(logs, bytes, answer.value.next, limit - n, k + 1));
    }
  }

  /** However the pages are cut, and whatever is appended while they are read, the result is one
      listing with the whole limit, of the log as the last request found it. It fails only on a
      record over the budget, and it takes no more requests than events are wanted. */
  lemma {:induction false} ReadIsOneListing<V>(logs: Listings<V>, bytes: Bytes<V>, after: Option<Key>, limit: nat,
                                               k: nat)
    requires AllSorted(logs) && AppendOnly(logs) && limit > 0
    ensures var read, requests := Read(logs, bytes, after, limit, k), ReadRequests(logs, bytes, after, limit, k);
            && 0 < requests <= limit
            && (read.Success? ==> read.value == ListJobEvents(logs(k + requests - 1), after, limit))
            && (read.Failure? ==> read.error == RecordTooLarge && !AllFit(logs, bytes))
    decreases limit
  {
    hide Before, Past, Answer, Answered, RowsAfter, EachFits;
    var pageLimit := Min(PAGE_MAX_RECORDS, limit);
    var log := logs(k);
    AnswerIsAPrefix(log, after, pageLimit, bytes);
    PageError(log, after, pageLimit, bytes);
    if EachFits(log, bytes) { AloneFits(log, after, pageLimit, bytes); }
    var answer := Answer(log, after, pageLimit, bytes);
    if answer.Success? {
      var all, n := RowsAfter(log, after), Answered(log, after, pageLimit, bytes);
      if answer.value.next.None? || n == limit {
        assert n == |all| ==> all[..n] == all;
      } else {
        ReadIsOneListing(logs, bytes, answer.value.next, limit - n, k + 1);
        var last := logs(k + ReadRequests(logs, bytes, after, limit, k) - 1);
        ListingGoesOn(log, last, after, n, limit);
      }
    }
  }

  /** The first `n` events of a log, and then the next of a longer one, are a listing of the longer. */
  lemma ListingGoesOn<V>(log: seq<Row<V>>, last: seq<Row<V>>, after: Option<Key>, n: nat, limit: nat)
    requires Sorted(last) && log <= last && 0 < n < limit && n <= |RowsAfter(log, after)|
    ensures RowsAfter(log, after)[..n] + ListJobEvents(last, Some(RowsAfter(log, after)[n - 1].key), limit - n) ==
            ListJobEvents(last, after, limit)
  {
    hide RowsAfter, Before, Past;
    AfterGrows(log, last, after);
    var all := RowsAfter(last, after);
    AfterComposes(last, after, n);
    assert RowsAfter(log, after)[..n] == all[..n] && RowsAfter(log, after)[n - 1] == all[n - 1];
  }
}
