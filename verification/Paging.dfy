/** Keyset pages cut by record count and by encoded bytes (apps/hub/src/service.ts), over the
    listings of packages/core/src/store.ts. */
module Paging {
  import opened Wrappers

  const PAGE_MAX_RECORDS: nat := 100
  const PAGE_MAX_BYTES: nat := 512 * 1024

  /** A sort key as the units it is compared by: a row number alone, or the text of a creation
      time, a zero and a message identifier. */
  type Key = seq<nat>

  predicate Before(a: Key, b: Key) {
    b != [] && (a == [] || a[0] < b[0] || (a[0] == b[0] && Before(a[1..], b[1..])))
  }

  datatype Row<V> = Row(key: Key, value: V)

  datatype Page<V> = Page(items: seq<V>, next: Option<Key>)

  datatype Problem = InvalidInput | RecordTooLarge | CursorStuck | TooManyPages

  /** Encoded length of a response holding these items and this cursor. */
  type Bytes<!V> = (seq<V>, Option<Key>) -> nat

  ghost predicate Sorted<V>(rows: seq<Row<V>>) {
    forall i, j :: 0 <= i < j < |rows| ==> Before(rows[i].key, rows[j].key)
  }

  predicate Past(after: Option<Key>, key: Key) { after.None? || Before(after.value, key) }

  /** The rows past a cursor, in key order. */
  function RowsAfter<V>(rows: seq<Row<V>>, after: Option<Key>): seq<Row<V>> {
    if rows == [] then []
    else if Past(after, rows[0].key) then [rows[0]] + RowsAfter(rows[1..], after) else RowsAfter(rows[1..], after)
  }

  function First<T>(s: seq<T>, limit: nat): seq<T> { if |s| <= limit then s else s[..limit] }

  function Values<V>(rows: seq<Row<V>>): seq<V> { seq(|rows|, i requires 0 <= i < |rows| => rows[i].value) }

  // ----- the order of keys -----

  lemma {:induction false} BeforeIsTransitive(a: Key, b: Key, c: Key)
    requires Before(a, b) && Before(b, c)
    ensures Before(a, c)
  {
    if a != [] && a[0] == b[0] == c[0] { BeforeIsTransitive(a[1..], b[1..], c[1..]); }
  }

  lemma {:induction false} BeforeIsIrreflexive(a: Key)
    ensures !Before(a, a)
  {
    if a != [] { BeforeIsIrreflexive(a[1..]); }
  }

  lemma {:induction false} BeforeIsTotal(a: Key, b: Key)
    ensures a == b || Before(a, b) || Before(b, a)
  {
    if a != [] && b != [] && a[0] == b[0] {
      BeforeIsTotal(a[1..], b[1..]);
      if a[1..] == b[1..] { assert a == [a[0]] + a[1..] && b == [b[0]] + b[1..]; }
    }
  }

  // ----- listing after a cursor -----

  lemma {:induction false} AfterIsAFilter<V>(rows: seq<Row<V>>, after: Option<Key>, row: Row<V>)
    ensures row in RowsAfter(rows, after) <==> row in rows && Past(after, row.key)
  {
    hide Before;
    if rows != [] {
      AfterIsAFilter(rows[1..], after, row);
      assert rows == [rows[0]] + rows[1..];
    }
  }

  lemma HeadIsFirst<V>(rows: seq<Row<V>>, row: Row<V>)
    requires Sorted(rows) && rows != [] && row in rows[1..]
    ensures Before(rows[0].key, row.key)
  {
    var i :| 0 <= i < |rows[1..]| && rows[1..][i] == row;
    assert rows[i + 1] == row;
  }

  lemma {:induction false} AfterKeepsSorted<V>(rows: seq<Row<V>>, after: Option<Key>)
    requires Sorted(rows)
    ensures Sorted(RowsAfter(rows, after))
  {
    hide Before, Past;
    if rows != [] {
      AfterKeepsSorted(rows[1..], after);
      var rest := RowsAfter(rows[1..], after);
      forall i | 0 <= i < |rest| ensures Before(rows[0].key, rest[i].key) {
        AfterIsAFilter(rows[1..], after, rest[i]);
        HeadIsFirst(rows, rest[i]);
      }
    }
  }

  /** Listing after a cursor lists an end of the rows. */
  lemma {:induction false} AfterIsASuffix<V>(rows: seq<Row<V>>, after: Option<Key>)
    requires Sorted(rows)
    ensures |RowsAfter(rows, after)| <= |rows| && RowsAfter(rows, after) == rows[|rows| - |RowsAfter(rows, after)|..]
  {
    hide Before;
    if rows != [] {
      var rest := rows[1..];
      if Past(after, rows[0].key) {
        AllLater(rest, rows[0].key, after);
      } else {
        AfterIsASuffix(rest, after);
      }
    }
  }

  /** Listing after the n-th row of a listing lists the rest of it. */
  lemma {:induction false} AfterComposes<V>(rows: seq<Row<V>>, after: Option<Key>, n: nat)
    requires Sorted(rows) && 0 < n <= |RowsAfter(rows, after)|
    ensures RowsAfter(rows, Some(RowsAfter(rows, after)[n - 1].key)) == RowsAfter(rows, after)[n..]
  {
    hide Before;
    var all, rest := RowsAfter(rows, after), rows[1..];
    var cursor := all[n - 1].key;
    AfterIsAFilter(rows, after, all[n - 1]);
    if !Past(after, rows[0].key) {
      AfterComposes(rest, after, n);
      NotBackwards(after, rows[0].key, cursor);
    } else if n > 1 {
      AfterComposes(rest, after, n - 1);
      AfterKeepsSorted(rows, after);
      assert Before(all[0].key, all[n - 1].key);
      BeforeIsAsymmetric(rows[0].key, cursor);
    } else {
      BeforeIsIrreflexive(cursor);
      AllLater(rest, cursor, after);
    }
  }

  lemma BeforeIsAsymmetric(a: Key, b: Key)
    requires Before(a, b)
    ensures !Before(b, a)
  {
    if Before(b, a) { BeforeIsTransitive(a, b, a); BeforeIsIrreflexive(a); }
  }

  lemma NotBackwards(after: Option<Key>, key: Key, cursor: Key)
    requires !Past(after, key) && Past(after, cursor)
    ensures !Before(cursor, key)
  {
    if Before(cursor, key) { BeforeIsTransitive(after.value, cursor, key); }
  }

  lemma {:induction false} AllLater<V>(rows: seq<Row<V>>, cursor: Key, after: Option<Key>)
    requires forall i :: 0 <= i < |rows| ==> Before(cursor, rows[i].key)
    requires Past(after, cursor)
    ensures RowsAfter(rows, Some(cursor)) == rows == RowsAfter(rows, after)
  {
    if rows != [] {
      AllLater(rows[1..], cursor, after);
      if after.Some? { BeforeIsTransitive(after.value, cursor, rows[0].key); }
    }
  }

  // ----- one page -----

  /** The page holding the first `n` candidates; it names a next cursor if any are left. */
  function Proposal<V>(candidates: seq<Row<V>>, n: nat): Page<V>
    requires 0 < n <= |candidates|
  {
    Page(Values(candidates[..n]), if n < |candidates| then Some(candidates[n - 1].key) else None)
  }

  function Measure<V>(page: Page<V>, bytes: Bytes<V>): nat { bytes(page.items, page.next) }

  /** How many candidates go into the page, from `n` on: as long as each longer one fits. */
  function Fitting<V>(candidates: seq<Row<V>>, maximum: nat, bytes: Bytes<V>, n: nat): nat
    requires n <= maximum <= |candidates|
    decreases maximum - n
  {
    if n < maximum && Measure(Proposal(candidates, n + 1), bytes) <= PAGE_MAX_BYTES then
      Fitting(candidates, maximum, bytes, n + 1)
    else n
  }

  function Min(a: nat, b: nat): nat { if a <= b then a else b }

  function Taken<V>(candidates: seq<Row<V>>, maximumRecords: nat, bytes: Bytes<V>): nat {
    Fitting(candidates, Min(|candidates|, maximumRecords), bytes, 0)
  }

  function PageOf<V>(candidates: seq<Row<V>>, maximumRecords: nat, bytes: Bytes<V>): Result<Page<V>, Problem> {
    if Min(|candidates|, maximumRecords) == 0 then Success(Page([], None))
    else
      FittingBounds(candidates, Min(|candidates|, maximumRecords), bytes, 0);
      var n := Taken(candidates, maximumRecords, bytes);
      if n == 0 then Failure(RecordTooLarge) else Success(Proposal(candidates, n))
  }

  lemma {:induction false} FittingBounds<V>(candidates: seq<Row<V>>, maximum: nat, bytes: Bytes<V>, n: nat)
    requires n <= maximum <= |candidates|
    ensures n <= Fitting(candidates, maximum, bytes, n) <= maximum
    ensures forall m :: n < m <= Fitting(candidates, maximum, bytes, n) ==>
              Measure(Proposal(candidates, m), bytes) <= PAGE_MAX_BYTES
    ensures Fitting(candidates, maximum, bytes, n) < maximum ==>
              Measure(Proposal(candidates, Fitting(candidates, maximum, bytes, n) + 1), bytes) > PAGE_MAX_BYTES
    decreases maximum - n
  {
    if n < maximum && Measure(Proposal(candidates, n + 1), bytes) <= PAGE_MAX_BYTES {
      FittingBounds(candidates, maximum, bytes, n + 1);
    }
  }

  method BoundedPage<V>(candidates: seq<Row<V>>, maximumRecords: nat, bytes: Bytes<V>)
    returns (r: Result<Page<V>, Problem>)
    ensures r == PageOf(candidates, maximumRecords, bytes)
  {
    var items: seq<V> := [];
    var lastCursor: Option<Key> := None;
    var maximum := Min(|candidates|, maximumRecords);
    for index := 0 to maximum
      invariant items == Values(candidates[..index])
      invariant lastCursor == if index == 0 then None else Some(candidates[index - 1].key)
      invariant Taken(candidates, maximumRecords, bytes) == Fitting(candidates, maximum, bytes, index)
    {
      var more := index + 1 < |candidates|;
      var proposed := Page(items + [candidates[index].value], if more then Some(candidates[index].key) else None);
      assert proposed.items == Values(candidates[..index + 1]);
      assert proposed == Proposal(candidates, index + 1);
      if Measure(proposed, bytes) > PAGE_MAX_BYTES {
        if lastCursor.None? { return Failure(RecordTooLarge); }
        return Success(Page(items, lastCursor));
      }
      items := items + [candidates[index].value];
      lastCursor := Some(candidates[index].key);
    }
    r := Success(Page(items, if |candidates| > maximum && lastCursor.Some? then lastCursor else None));
  }

  /** A page that is returned is the last proposal that was measured: it fits the byte budget, a
      longer page would have been over one of the limits, and it is not empty if it has a next
      cursor, which is the key of its last record. With nothing to put on it the page is empty and
      is not measured. */
  lemma PagesFit<V>(candidates: seq<Row<V>>, maximumRecords: nat, bytes: Bytes<V>)
    ensures var n := Taken(candidates, maximumRecords, bytes);
            match PageOf(candidates, maximumRecords, bytes)
            case Success(page) =>
              if Min(|candidates|, maximumRecords) == 0 then page == Page([], None)
              else
              && 0 < n <= Min(|candidates|, maximumRecords)
              && page.items == Values(candidates[..n]) && Measure(page, bytes) <= PAGE_MAX_BYTES
              && page.next == (if n < |candidates| then Some(candidates[n - 1].key) else None)
              && (n == Min(|candidates|, maximumRecords)
                  || Measure(Proposal(candidates, n + 1), bytes) > PAGE_MAX_BYTES)
            case Failure(_) =>
              Min(|candidates|, maximumRecords) > 0 && Measure(Proposal(candidates, 1), bytes) > PAGE_MAX_BYTES
  {
    FittingBounds(candidates, Min(|candidates|, maximumRecords), bytes, 0);
  }
}
