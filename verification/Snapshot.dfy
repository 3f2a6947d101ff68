/** The dashboard snapshot (apps/hub/src/service.ts): nine listings served as one sequence of
    pages, cut by record count and encoded bytes, with a position that names a stage. */
module Snapshot {
  import opened Wrappers
  import opened Paging
  import Cursors

  const STAGES: nat := 9
  const RECENT_EVENTS: nat := 8

  /** One record of a page, with the collection it belongs to. */
  datatype Entry<V> = Entry(stage: nat, row: Row<V>)

  /** Where a page starts; the first page has no event cursor yet. */
  datatype Position = Position(stage: nat, after: Option<Key>, eventCursor: Option<nat>)

  datatype SnapshotPage<V> = SnapshotPage(entries: seq<Entry<V>>, latest: nat, next: Option<Position>)

  /** Encoded length of a page. */
  type PageBytes<!V> = (seq<Entry<V>>, nat, Option<Position>) -> nat

  /** The nine listings: devices, workspaces, agents, messages, leases, integrations, jobs,
      reconciliations and audit events. */
  ghost predicate IsStore<V>(store: seq<seq<Row<V>>>) {
    |store| == STAGES && forall stage :: 0 <= stage < STAGES ==> Sorted(store[stage])
  }

  /** The recent events start at most a hundred before the watermark. */
  function StageAfter(stage: nat, after: Option<Key>, latest: nat): Option<Key> {
    if stage == RECENT_EVENTS && after.None? then Some([if latest > 100 then latest - 100 else 0]) else after
  }

  function StageRows<V>(store: seq<seq<Row<V>>>, stage: nat, after: Option<Key>, latest: nat): seq<Row<V>>
    requires |store| == STAGES && stage < STAGES
  {
    RowsAfter(store[stage], StageAfter(stage, after, latest))
  }

  function SnapshotCandidates<V>(
    store: seq<seq<Row<V>>>, stage: nat, after: Option<Key>, limit: nat, latest: nat): seq<Row<V>>
    requires |store| == STAGES && stage < STAGES
  {
    First(StageRows(store, stage, after, latest), limit)
  }

  function Tagged<V>(stage: nat, rows: seq<Row<V>>): seq<Entry<V>> {
    seq(|rows|, i requires 0 <= i < |rows| => Entry(stage, rows[i]))
  }

  /** Everything from a position on: the rest of its stage, then the later stages in full. */
  function Rest<V>(store: seq<seq<Row<V>>>, stage: nat, after: Option<Key>, latest: nat): seq<Entry<V>>
    requires |store| == STAGES && stage <= STAGES
    decreases STAGES - stage
  {
    if stage == STAGES then []
    else Tagged(stage, StageRows(store, stage, after, latest)) + Rest(store, stage + 1, None, latest)
  }

  function RestOf<V>(store: seq<seq<Row<V>>>, next: Option<Position>, latest: nat): seq<Entry<V>>
    requires |store| == STAGES && (next.Some? ==> next.value.stage <= STAGES)
  {
    if next.None? then [] else Rest(store, next.value.stage, next.value.after, latest)
  }

  // ----- the page of what is left to read -----

  /** The position after a candidate, as it is priced. */
  function PositionAfter(stage: nat, key: Key, moreInStage: bool, latest: nat): Option<Position> {
    if moreInStage then Some(Position(stage, Some(key), Some(latest)))
    else if stage + 1 < STAGES then Some(Position(stage + 1, None, Some(latest)))
    else None
  }

  /** The position that the page of the first `n` records is measured with. */
  function PricedCursor<V>(rest: seq<Entry<V>>, n: nat, latest: nat): Option<Position>
    requires 0 < n <= |rest|
  {
    var last := rest[n - 1];
    PositionAfter(last.stage, last.row.key, n < |rest| && rest[n].stage == last.stage, latest)
  }

  predicate Fits<V>(rest: seq<Entry<V>>, n: nat, latest: nat, bytes: PageBytes<V>)
    requires 0 < n <= |rest|
  {
    bytes(rest[..n], latest, PricedCursor(rest, n, latest)) <= PAGE_MAX_BYTES
  }

  function MostRecords<V>(rest: seq<Entry<V>>): nat { Min(|rest|, PAGE_MAX_RECORDS) }

  /** How many records go on the page, from `n` on: as long as each longer page fits. */
  function RecordsFrom<V>(rest: seq<Entry<V>>, latest: nat, bytes: PageBytes<V>, n: nat): nat
    requires n <= MostRecords(rest)
    decreases |rest| - n
  {
    if n < MostRecords(rest) && Fits(rest, n + 1, latest, bytes) then RecordsFrom(rest, latest, bytes, n + 1) else n
  }

  function Records<V>(rest: seq<Entry<V>>, latest: nat, bytes: PageBytes<V>): (n: nat)
    ensures n <= MostRecords(rest)
  {
    RecordsBounds(rest, latest, bytes, 0);
    RecordsFrom(rest, latest, bytes, 0)
  }

  /** The position that the page of the first `n` records names. */
  function NextPosition<V>(rest: seq<Entry<V>>, n: nat, latest: nat): Option<Position>
    requires 0 < n <= |rest|
  {
    if n == PAGE_MAX_RECORDS || (n < |rest| && rest[n].stage == rest[n - 1].stage) then PricedCursor(rest, n, latest)
    else if n < |rest| then Some(Position(rest[n].stage, None, Some(latest)))
    else None
  }

  /** The page that is served when `rest` is left to read. */
  function PageFrom<V>(rest: seq<Entry<V>>, latest: nat, bytes: PageBytes<V>): Result<SnapshotPage<V>, Problem> {
    if rest == [] then Success(SnapshotPage([], latest, None))
    else
      var n := Records(rest, latest, bytes);
      if n == 0 then Failure(RecordTooLarge)
      else Success(SnapshotPage(rest[..n], latest, NextPosition(rest, n, latest)))
  }

  lemma {:induction false} RecordsBounds<V>(rest: seq<Entry<V>>, latest: nat, bytes: PageBytes<V>, n: nat)
    requires n <= MostRecords(rest)
    ensures n <= RecordsFrom(rest, latest, bytes, n) <= MostRecords(rest)
    ensures forall m :: n < m <= RecordsFrom(rest, latest, bytes, n) ==> Fits(rest, m, latest, bytes)
    ensures var taken := RecordsFrom(rest, latest, bytes, n);
            taken < MostRecords(rest) ==> !Fits(rest, taken + 1, latest, bytes)
    decreases |rest| - n
  {
    hide Fits;
    if n < MostRecords(rest) && Fits(rest, n + 1, latest, bytes) { RecordsBounds(rest, latest, bytes, n + 1); }
  }

  /** `n` records are taken exactly if the pages of 1, 2, ..., `n` records all fit, each measured with
      the cursor that would follow it, and there is not one record more, or no room for it. */
  lemma RecordsAreAllThatFit<V>(rest: seq<Entry<V>>, latest: nat, bytes: PageBytes<V>, n: nat)
    ensures n == Records(rest, latest, bytes) <==>
            && n <= MostRecords(rest) && (forall m :: 0 < m <= n ==> Fits(rest, m, latest, bytes))
            && (n < MostRecords(rest) ==> !Fits(rest, n + 1, latest, bytes))
  {
    hide Fits, RecordsFrom;
    RecordsBounds(rest, latest, bytes, 0);
    var taken := Records(rest, latest, bytes);
    if n < taken { assert Fits(rest, n + 1, latest, bytes); }
  }

  // ----- pieces of the listing -----

  lemma TaggedGrows<V>(stage: nat, rows: seq<Row<V>>, n: nat)
    requires n < |rows|
    ensures Tagged(stage, rows)[n] == Entry(stage, rows[n])
  {
  }

  /** What is left from a stage on belongs to that stage and later ones. */
  lemma {:induction false} FromItsStage<V>(
    store: seq<seq<Row<V>>>, stage: nat, after: Option<Key>, latest: nat, i: nat)
    requires |store| == STAGES && stage <= STAGES && i < |Rest(store, stage, after, latest)|
    ensures var entry := Rest(store, stage, after, latest)[i];
            stage <= entry.stage < STAGES && entry.row in store[entry.stage]
    decreases STAGES - stage
  {
    hide StageRows;
    var rows := StageRows(store, stage, after, latest);
    if i < |rows| {
      RowsAreListed(store, stage, after, latest, rows[i]);
    } else {
      FromItsStage(store, stage + 1, None, latest, i - |rows|);
    }
  }

  lemma RowsAreListed<V>(store: seq<seq<Row<V>>>, stage: nat, after: Option<Key>, latest: nat, row: Row<V>)
    requires |store| == STAGES && stage < STAGES && row in StageRows(store, stage, after, latest)
    ensures row in store[stage]
  {
    AfterIsAFilter(store[stage], StageAfter(stage, after, latest), row);
  }

  /** Stages without a row before the first record left over may be skipped. */
  lemma {:induction false} SkipToFirst<V>(store: seq<seq<Row<V>>>, stage: nat, latest: nat)
    requires |store| == STAGES && stage <= STAGES && Rest(store, stage, None, latest) != []
    ensures var rest := Rest(store, stage, None, latest);
            rest[0].stage < STAGES && Rest(store, rest[0].stage, None, latest) == rest
    ensures var rest := Rest(store, stage, None, latest);
            stage < rest[0].stage ==> StageRows(store, stage, None, latest) == []
    decreases STAGES - stage
  {
    hide StageRows;
    var rows := StageRows(store, stage, None, latest);
    var later := Rest(store, stage + 1, None, latest);
    if rows == [] {
      assert Tagged(stage, rows) + later == later;
      SkipToFirst(store, stage + 1, latest);
    } else {
      TaggedGrows(stage, rows, 0);
    }
  }

  /** What follows the first `n` records left over: reading on in the stage of the last of them, or
      at the stage after it if it was the last of its own. */
  lemma {:induction false} AfterRecords<V>(
    store: seq<seq<Row<V>>>, stage: nat, after: Option<Key>, latest: nat, n: nat)
    requires IsStore(store) && stage <= STAGES && 0 < n <= |Rest(store, stage, after, latest)|
    ensures var rest := Rest(store, stage, after, latest);
            var last := rest[n - 1];
            && stage <= last.stage < STAGES && Rest(store, last.stage, Some(last.row.key), latest) == rest[n..]
            && (n < |rest| ==> last.stage <= rest[n].stage)
            && (n == |rest| || rest[n].stage != last.stage ==> Rest(store, last.stage + 1, None, latest) == rest[n..])
    decreases STAGES - stage
  {
    hide StageRows, Sorted, Rest;
    NothingAfterTheLastStage(store, [], latest, after);
    var rows := StageRows(store, stage, after, latest);
    var rest, later := Rest(store, stage, after, latest), Rest(store, stage + 1, None, latest);
    if n <= |rows| {
      WithinStage(store, stage, after, latest, n);
      if |rows| == n < |rest| { FromItsStage(store, stage + 1, None, latest, 0); }
    } else {
      BeyondStage(store, stage, after, latest, n);
      AfterRecords(store, stage + 1, None, latest, n - |rows|);
    }
  }

  lemma WithinStage<V>(store: seq<seq<Row<V>>>, stage: nat, after: Option<Key>, latest: nat, n: nat)
    requires IsStore(store) && stage < STAGES && 0 < n <= |StageRows(store, stage, after, latest)|
    ensures var rows, rest := StageRows(store, stage, after, latest), Rest(store, stage, after, latest);
            && n <= |rest| && rest[n - 1] == Entry(stage, rows[n - 1])
            && Rest(store, stage, Some(rows[n - 1].key), latest) == rest[n..]
            && (n < |rows| ==> n < |rest| && rest[n].stage == stage)
            && (n == |rows| ==> Rest(store, stage + 1, None, latest) == rest[n..])
  {
    hide RowsAfter, Before, Sorted;
    var rows := StageRows(store, stage, after, latest);
    AfterComposes(store[stage], StageAfter(stage, after, latest), n);
    assert Tagged(stage, rows)[n..] == Tagged(stage, rows[n..]);
    var later := Rest(store, stage + 1, None, latest);
    assert (Tagged(stage, rows) + later)[n..] == Tagged(stage, rows)[n..] + later;
  }

  lemma BeyondStage<V>(store: seq<seq<Row<V>>>, stage: nat, after: Option<Key>, latest: nat, n: nat)
    requires |store| == STAGES && stage < STAGES
    requires |StageRows(store, stage, after, latest)| < n <= |Rest(store, stage, after, latest)|
    ensures var rest, later := Rest(store, stage, after, latest), Rest(store, stage + 1, None, latest);
            var m := n - |StageRows(store, stage, after, latest)|;
            && |later| - m == |rest| - n && rest[n - 1] == later[m - 1] && rest[n..] == later[m..]
            && (n < |rest| ==> rest[n] == later[m])
  {
    hide StageRows;
  }

  // ----- what is left of each listing -----

  function OfStage<V>(entries: seq<Entry<V>>, stage: nat): seq<Row<V>> {
    if entries == [] then []
    else (if entries[0].stage == stage then [entries[0].row] else []) + OfStage(entries[1..], stage)
  }

  /** What is left of one stage when reading starts before it, or in it at `after`. */
  lemma {:induction false} RestOfStage<V>(
    store: seq<seq<Row<V>>>, from: nat, after: Option<Key>, latest: nat, stage: nat)
    requires |store| == STAGES && from <= stage < STAGES
    ensures OfStage(Rest(store, from, after, latest), stage) ==
            StageRows(store, stage, if from == stage then after else None, latest)
    decreases STAGES - from
  {
    hide StageRows;
    var rows := StageRows(store, from, after, latest);
    var later := Rest(store, from + 1, None, latest);
    OfStageSplits(Tagged(from, rows), later, stage);
    OfTagged(from, rows, stage);
    if from < stage {
      RestOfStage(store, from + 1, None, latest, stage);
    } else {
      LaterStagesAreOther(store, from + 1, latest, stage);
    }
    assert rows + [] == rows;
  }

  lemma {:induction false} OfStageSplits<V>(left: seq<Entry<V>>, right: seq<Entry<V>>, stage: nat)
    ensures OfStage(left + right, stage) == OfStage(left, stage) + OfStage(right, stage)
  {
    if left == [] {
      assert left + right == right;
    } else {
      OfStageSplits(left[1..], right, stage);
      assert (left + right)[1..] == left[1..] + right && (left + right)[0] == left[0];
      var head := if left[0].stage == stage then [left[0].row] else [];
      Regroup(head, OfStage(left[1..], stage), OfStage(right, stage));
    }
  }

  lemma {:induction false} OfTagged<V>(from: nat, rows: seq<Row<V>>, stage: nat)
    ensures OfStage(Tagged(from, rows), stage) == if from == stage then rows else []
  {
    if rows != [] {
      OfTagged(from, rows[1..], stage);
      assert Tagged(from, rows)[1..] == Tagged(from, rows[1..]);
    }
  }

  lemma {:induction false} LaterStagesAreOther<V>(store: seq<seq<Row<V>>>, from: nat, latest: nat, stage: nat)
    requires |store| == STAGES && stage < from <= STAGES
    ensures OfStage(Rest(store, from, None, latest), stage) == []
    decreases STAGES - from
  {
    hide StageRows;
    if from < STAGES {
      var rows := StageRows(store, from, None, latest);
      OfStageSplits(Tagged(from, rows), Rest(store, from + 1, None, latest), stage);
      OfTagged(from, rows, stage);
      LaterStagesAreOther(store, from + 1, latest, stage);
    }
  }

  lemma {:induction false} NoCursorListsAll<V>(rows: seq<Row<V>>)
    ensures RowsAfter(rows, None) == rows
  {
    if rows != [] { NoCursorListsAll(rows[1..]); }
  }

  /** From the start, the first eight listings are left in full. */
  lemma ListingsAreLeftInFull<V>(store: seq<seq<Row<V>>>, latest: nat, stage: nat)
    requires |store| == STAGES && stage < 8
    ensures OfStage(Rest(store, 0, None, latest), stage) == store[stage]
  {
    hide Rest, OfStage, RowsAfter;
    RestOfStage(store, 0, None, latest, stage);
    NoCursorListsAll(store[stage]);
  }

  /** The audit listing: its keys are its cursors, which count from 1. */
  predicate KeyedByCursor<V>(rows: seq<Row<V>>) {
    forall i :: 0 <= i < |rows| ==> |rows[i].key| == 1 && rows[i].key[0] >= 1
  }

  /** Of the audit listing, the rows of the last hundred cursors up to the watermark and all later
      ones are left, in order and each once. */
  lemma RecentEventsAreLeft<V>(store: seq<seq<Row<V>>>, latest: nat)
    requires IsStore(store) && KeyedByCursor(store[8])
    ensures var recent := OfStage(Rest(store, 0, None, latest), 8);
            && Sorted(recent) && (forall row <- recent :: row in store[8])
            && forall row <- store[8] :: row in recent <==> row.key[0] > latest - 100
  {
    hide Rest, OfStage, RowsAfter, Sorted;
    RestOfStage(store, 0, None, latest, 8);
    var from := StageAfter(8, None, latest);
    AfterKeepsSorted(store[8], from);
    var recent := OfStage(Rest(store, 0, None, latest), 8);
    forall row | row in recent ensures row in store[8] { AfterIsAFilter(store[8], from, row); }
    forall row | row in store[8] ensures row in recent <==> row.key[0] > latest - 100 {
      AfterIsAFilter(store[8], from, row);
      assert |row.key| == 1 && row.key[0] >= 1;
      assert row.key[1..] == [] && from.value[1..] == [] && !Before([], []);
    }
  }

  // ----- one page -----

  /** The k-th candidate of a stage is the next record left to read, and the cursor that the code
      prices it with is the one that follows it. */
  lemma AtCandidate<V>(store: seq<seq<Row<V>>>, stage: nat, after: Option<Key>, limit: nat, latest: nat,
                       earlier: seq<Entry<V>>, k: nat)
    requires |store| == STAGES && stage < STAGES && k + 1 < limit
    requires k < |SnapshotCandidates(store, stage, after, limit, latest)|
    ensures var candidates := SnapshotCandidates(store, stage, after, limit, latest);
            var rest, n := earlier + Rest(store, stage, after, latest), |earlier| + k;
            && n < |rest| && rest[n] == Entry(stage, candidates[k])
            && PricedCursor(rest, n + 1, latest) ==
               PositionAfter(stage, candidates[k].key, k + 1 < |candidates|, latest)
  {
    hide StageRows;
    var rows := StageRows(store, stage, after, latest);
    var rest := earlier + Rest(store, stage, after, latest);
    TaggedGrows(stage, rows, k);
    if k + 1 < |rows| {
      TaggedGrows(stage, rows, k + 1);
    } else if |earlier| + k + 1 < |rest| {
      FromItsStage(store, stage + 1, None, latest, 0);
    }
  }

  lemma StageIsDone<V>(store: seq<seq<Row<V>>>, stage: nat, after: Option<Key>, limit: nat, latest: nat,
                       earlier: seq<Entry<V>>, entries: seq<Entry<V>>)
    requires |store| == STAGES && stage < STAGES && |SnapshotCandidates(store, stage, after, limit, latest)| < limit
    requires |entries| == |earlier| + |SnapshotCandidates(store, stage, after, limit, latest)|
    requires entries <= earlier + Rest(store, stage, after, latest)
    ensures entries + Rest(store, stage + 1, None, latest) == earlier + Rest(store, stage, after, latest)
  {
    hide StageRows;
    var rows, later := StageRows(store, stage, after, latest), Rest(store, stage + 1, None, latest);
    var rest := earlier + Rest(store, stage, after, latest);
    assert rest == earlier + Tagged(stage, rows) + later;
  }

  /** The records read so far are the first ones left to read, each taken within the limits. */
  ghost predicate ReadSoFar<V>(rest: seq<Entry<V>>, entries: seq<Entry<V>>, latest: nat, bytes: PageBytes<V>) {
    && |entries| < PAGE_MAX_RECORDS && entries <= rest
    && Records(rest, latest, bytes) == RecordsFrom(rest, latest, bytes, |entries|)
  }

  lemma SoFarIsAPrefix<V>(rest: seq<Entry<V>>, entries: seq<Entry<V>>, latest: nat, bytes: PageBytes<V>)
    requires ReadSoFar(rest, entries, latest, bytes)
    ensures |entries| < PAGE_MAX_RECORDS && entries <= rest
  {
  }

  lemma NothingRead<V>(rest: seq<Entry<V>>, latest: nat, bytes: PageBytes<V>)
    ensures ReadSoFar(rest, [], latest, bytes)
  {
  }

  /** One record more fits. */
  lemma TakesOneMore<V>(rest: seq<Entry<V>>, entries: seq<Entry<V>>, latest: nat, bytes: PageBytes<V>)
    requires ReadSoFar(rest, entries, latest, bytes) && |entries| < |rest|
    requires var n := |entries| + 1;
             bytes(entries + [rest[n - 1]], latest, PricedCursor(rest, n, latest)) <= PAGE_MAX_BYTES
    ensures var taken := entries + [rest[|entries|]];
            if |taken| < PAGE_MAX_RECORDS then ReadSoFar(rest, taken, latest, bytes)
            else
              PageFrom(rest, latest, bytes) ==
              Success(SnapshotPage(taken, latest, PricedCursor(rest, |taken|, latest)))
  {
    hide PricedCursor;
    var taken := entries + [rest[|entries|]];
    assert rest[..|taken|] == taken;
    assert RecordsFrom(rest, latest, bytes, |entries|) == RecordsFrom(rest, latest, bytes, |taken|);
  }

  /** One record more does not fit: the page ends, before a record of its own stage or at the start
      of that record's stage. */
  lemma TakesNoMore<V>(rest: seq<Entry<V>>, entries: seq<Entry<V>>, latest: nat, bytes: PageBytes<V>)
    requires ReadSoFar(rest, entries, latest, bytes) && |entries| < |rest|
    requires var n := |entries| + 1;
             bytes(entries + [rest[n - 1]], latest, PricedCursor(rest, n, latest)) > PAGE_MAX_BYTES
    ensures PageFrom(rest, latest, bytes) ==
            if entries == [] then Failure(RecordTooLarge)
            else
              var last, next := entries[|entries| - 1], rest[|entries|];
              var after := if next.stage == last.stage then Some(last.row.key) else None;
              Success(SnapshotPage(entries, latest, Some(Position(next.stage, after, Some(latest)))))
  {
    var n := |entries|;
    assert rest[..n + 1] == entries + [rest[n]] && rest[..n] == entries;
    assert Records(rest, latest, bytes) == n;
  }

  lemma AllRead<V>(rest: seq<Entry<V>>, latest: nat, bytes: PageBytes<V>)
    requires ReadSoFar(rest, rest, latest, bytes)
    ensures PageFrom(rest, latest, bytes) == Success(SnapshotPage(rest, latest, None))
  {
    hide Fits;
    assert rest[..|rest|] == rest;
  }

  /** The last record is of an earlier stage. */
  predicate Below<V>(entries: seq<Entry<V>>, stage: nat) {
    entries != [] ==> entries[|entries| - 1].stage < stage
  }

  lemma NothingIsBelow<V>(stage: nat)
    ensures Below<V>([], stage)
  {
  }

  function Watermark(position: Position, latestNow: nat): nat {
    if position.eventCursor.Some? then position.eventCursor.value else latestNow
  }

  /** How reading one stage into a page ends. */
  datatype Fill<V> = Returned(page: SnapshotPage<V>) | TooLarge | StageFinished(entries: seq<Entry<V>>)

  /** The inner loop of snapshot(): one stage. The check after that loop for candidates beyond the
      record limit never succeeds, as the loop returns at the limit; it has no counterpart here. */
  method FillStage<V>(
    store: seq<seq<Row<V>>>, stage: nat, after: Option<Key>, latest: nat, earlier: seq<Entry<V>>,
    bytes: PageBytes<V>, ghost rest: seq<Entry<V>>)
    returns (f: Fill<V>)
    requires |store| == STAGES && stage < STAGES && rest == earlier + Rest(store, stage, after, latest)
    requires ReadSoFar(rest, earlier, latest, bytes) && Below(earlier, stage) && (earlier != [] ==> after.None?)
    ensures match f
            case TooLarge => PageFrom(rest, latest, bytes) == Failure(RecordTooLarge)
            case Returned(page) => PageFrom(rest, latest, bytes) == Success(page)
            case StageFinished(entries) =>
              && ReadSoFar(rest, entries, latest, bytes) && Below(entries, stage + 1)
              && rest == entries + Rest(store, stage + 1, None, latest)
  {
    hide StageRows, SnapshotCandidates, Rest, ReadSoFar, PageFrom, PricedCursor, PositionAfter;
    SoFarIsAPrefix(rest, earlier, latest, bytes);
    var remaining := PAGE_MAX_RECORDS - |earlier|;
    var candidates := SnapshotCandidates(store, stage, after, remaining + 1, latest);
    var maximum := Min(|candidates|, remaining);
    var entries := earlier;
    var lastCursor := after;
    for index := 0 to maximum
      invariant ReadSoFar(rest, entries, latest, bytes) && |entries| == |earlier| + index < PAGE_MAX_RECORDS
      invariant if index == 0 then entries == earlier else entries[|entries| - 1] == Entry(stage, candidates[index - 1])
      invariant lastCursor == if index == 0 then after else Some(candidates[index - 1].key)
    {
      var candidate := candidates[index];
      var moreInStage := index + 1 < |candidates|;
      var next := PositionAfter(stage, candidate.key, moreInStage, latest);
      var proposed := entries + [Entry(stage, candidate)];
      AtCandidate(store, stage, after, remaining + 1, latest, earlier, index);
      if bytes(proposed, latest, next) > PAGE_MAX_BYTES {
        TakesNoMore(rest, entries, latest, bytes);
        if entries == [] { return TooLarge; }
        return Returned(SnapshotPage(entries, latest, Some(Position(stage, lastCursor, Some(latest)))));
      }
      TakesOneMore(rest, entries, latest, bytes);
      entries := proposed;
      lastCursor := Some(candidate.key);
      if |entries| == PAGE_MAX_RECORDS { return Returned(SnapshotPage(entries, latest, next)); }
    }
    SoFarIsAPrefix(rest, entries, latest, bytes);
    StageIsDone(store, stage, after, remaining + 1, latest, earlier, entries);
    f := StageFinished(entries);
  }

  /** A page is what PageFrom makes of everything that was left to read at its position. */
  method TakeSnapshot<V>(store: seq<seq<Row<V>>>, position: Position, latestNow: nat, bytes: PageBytes<V>)
    returns (r: Result<SnapshotPage<V>, Problem>)
    requires |store| == STAGES && position.stage < STAGES
    ensures var latest := Watermark(position, latestNow);
            r == PageFrom(Rest(store, position.stage, position.after, latest), latest, bytes)
  {
    hide Rest, ReadSoFar, PageFrom, Below;
    var latest := Watermark(position, latestNow);
    var entries: seq<Entry<V>> := [];
    var stageIndex := position.stage;
    var after := position.after;
    ghost var rest := Rest(store, position.stage, position.after, latest);
    NothingRead(rest, latest, bytes);
    NothingIsBelow<V>(stageIndex);
    while stageIndex < STAGES && |entries| < PAGE_MAX_RECORDS
      invariant stageIndex <= STAGES && |entries| < PAGE_MAX_RECORDS && (stageIndex == STAGES ==> after.None?)
      invariant rest == entries + Rest(store, stageIndex, after, latest)
      invariant ReadSoFar(rest, entries, latest, bytes) && Below(entries, stageIndex) && (entries != [] ==> after.None?)
      decreases STAGES - stageIndex
    {
      var filled := FillStage(store, stageIndex, after, latest, entries, bytes, rest);
      match filled {
        case TooLarge => return Failure(RecordTooLarge);
        case Returned(page) => return Success(page);
        case StageFinished(more) =>
          SoFarIsAPrefix(rest, more, latest, bytes);
          entries := more;
      }
      stageIndex := stageIndex + 1;
      after := None;
    }
    NothingAfterTheLastStage(store, entries, latest, None);
    AllRead(rest, latest, bytes);
    r := Success(SnapshotPage(entries, latest, None));
  }

  lemma NothingAfterTheLastStage<V>(
    store: seq<seq<Row<V>>>, entries: seq<Entry<V>>, latest: nat, after: Option<Key>)
    requires |store| == STAGES
    ensures entries + Rest(store, STAGES, after, latest) == entries
  {
  }

  /** A page and the position after it split what there was to read, and a page that names a next
      position is not empty. */
  ghost predicate Splits<V>(store: seq<seq<Row<V>>>, rest: seq<Entry<V>>, page: SnapshotPage<V>)
    requires |store| == STAGES
  {
    && |page.entries| <= PAGE_MAX_RECORDS && (page.next.Some? ==> page.entries != [])
    && (page.next.Some? ==> page.next.value.stage < STAGES && page.next.value.eventCursor == Some(page.latest))
    && page.entries + RestOf(store, page.next, page.latest) == rest
  }

  lemma PageSplitsTheRest<V>(store: seq<seq<Row<V>>>, position: Position, latest: nat, bytes: PageBytes<V>)
    requires IsStore(store) && position.stage < STAGES
    ensures var rest := Rest(store, position.stage, position.after, latest);
            match PageFrom(rest, latest, bytes)
            case Success(page) => page.latest == latest && Splits(store, rest, page)
            case Failure(_) => rest != [] && !Fits(rest, 1, latest, bytes)
  {
    hide Rest, Fits, RecordsFrom, Sorted;
    var rest := Rest(store, position.stage, position.after, latest);
    if rest != [] {
      RecordsBounds(rest, latest, bytes, 0);
      var n := Records(rest, latest, bytes);
      if n > 0 {
        AfterRecords(store, position.stage, position.after, latest, n);
        NothingAfterTheLastStage(store, [], latest, None);
        if n < |rest| && rest[n].stage != rest[n - 1].stage { SkipToFirst(store, rest[n - 1].stage + 1, latest); }
        assert rest[..n] + rest[n..] == rest;
      }
    }
  }

  // ----- following the pages -----

  /** The record fits a page of its own with the cursor that then follows it. */
  ghost predicate FitsAlone<V>(stage: nat, row: Row<V>, more: bool, latest: nat, bytes: PageBytes<V>) {
    bytes([Entry(stage, row)], latest, PositionAfter(stage, row.key, more, latest)) <= PAGE_MAX_BYTES
  }

  ghost predicate AllFitAlone<V>(store: seq<seq<Row<V>>>, latest: nat, bytes: PageBytes<V>)
    requires |store| == STAGES
  {
    forall stage, i :: 0 <= stage < STAGES && 0 <= i < |store[stage]| ==>
      FitsAlone(stage, store[stage][i], i + 1 < |store[stage]|, latest, bytes)
  }

  lemma {:induction false} TooLargeAlone<V>(
    store: seq<seq<Row<V>>>, stage: nat, after: Option<Key>, latest: nat, bytes: PageBytes<V>)
    requires IsStore(store) && stage <= STAGES
    requires var rest := Rest(store, stage, after, latest); rest != [] && !Fits(rest, 1, latest, bytes)
    ensures !AllFitAlone(store, latest, bytes)
    decreases STAGES - stage
  {
    hide StageRows, Sorted, Fits, AllFitAlone, Rest;
    NothingAfterTheLastStage(store, [], latest, after);
    if StageRows(store, stage, after, latest) == [] {
      NoRowsInStage(store, stage, after, latest);
      TooLargeAlone(store, stage + 1, None, latest, bytes);
    } else {
      FirstFitsAlone(store, stage, after, latest, bytes);
      NotAllFitAlone(store, stage, after, latest, bytes);
    }
  }

  lemma NoRowsInStage<V>(store: seq<seq<Row<V>>>, stage: nat, after: Option<Key>, latest: nat)
    requires |store| == STAGES && stage < STAGES && StageRows(store, stage, after, latest) == []
    ensures Rest(store, stage, after, latest) == Rest(store, stage + 1, None, latest)
  {
    hide StageRows;
  }

  lemma FirstFitsAlone<V>(store: seq<seq<Row<V>>>, stage: nat, after: Option<Key>, latest: nat, bytes: PageBytes<V>)
    requires |store| == STAGES && stage < STAGES && StageRows(store, stage, after, latest) != []
    ensures var rows, rest := StageRows(store, stage, after, latest), Rest(store, stage, after, latest);
            rest != [] && (Fits(rest, 1, latest, bytes) <==> FitsAlone(stage, rows[0], 1 < |rows|, latest, bytes))
  {
    hide StageRows, PricedCursor, PositionAfter;
    var rows, rest := StageRows(store, stage, after, latest), Rest(store, stage, after, latest);
    AtCandidate(store, stage, after, |rows| + 1, latest, [], 0);
    assert [] + rest == rest && rest[..1] == [rest[0]];
  }

  lemma NotAllFitAlone<V>(store: seq<seq<Row<V>>>, stage: nat, after: Option<Key>, latest: nat, bytes: PageBytes<V>)
    requires IsStore(store) && stage < STAGES && StageRows(store, stage, after, latest) != []
    requires var rows := StageRows(store, stage, after, latest); !FitsAlone(stage, rows[0], 1 < |rows|, latest, bytes)
    ensures !AllFitAlone(store, latest, bytes)
  {
    hide RowsAfter, Sorted, FitsAlone;
    var rows := StageRows(store, stage, after, latest);
    AfterIsASuffix(store[stage], StageAfter(stage, after, latest));
    var i := |store[stage]| - |rows|;
    assert store[stage][i] == rows[0];
    assert !FitsAlone(stage, store[stage][i], i + 1 < |store[stage]|, latest, bytes);
  }

  function Entries<V>(pages: seq<SnapshotPage<V>>): seq<Entry<V>> {
    if pages == [] then [] else Entries(pages[..|pages| - 1]) + pages[|pages| - 1].entries
  }

  /** The k-th page is what PageFrom makes of what the pages before it left. */
  ghost predicate IsNext<V>(
    pages: seq<SnapshotPage<V>>, k: nat, whole: seq<Entry<V>>, latest: nat, bytes: PageBytes<V>)
    requires k < |pages|
  {
    var n := |Entries(pages[..k])|;
    n <= |whole| && PageFrom(whole[n..], latest, bytes) == Success(pages[k])
  }

  lemma OneMorePage<V>(pages: seq<SnapshotPage<V>>, page: SnapshotPage<V>, whole: seq<Entry<V>>,
                       left: seq<Entry<V>>, latest: nat, bytes: PageBytes<V>)
    requires Entries(pages) + left == whole && PageFrom(left, latest, bytes) == Success(page)
    requires forall k :: 0 <= k < |pages| ==> IsNext(pages, k, whole, latest, bytes)
    ensures Entries(pages + [page]) == Entries(pages) + page.entries
    ensures forall k :: 0 <= k <= |pages| ==> IsNext(pages + [page], k, whole, latest, bytes)
  {
    hide PageFrom;
    assert (pages + [page])[..|pages|] == pages && whole[|Entries(pages)|..] == left;
    forall k | 0 <= k < |pages| ensures IsNext(pages + [page], k, whole, latest, bytes) {
      assert IsNext(pages, k, whole, latest, bytes) && (pages + [page])[..k] == pages[..k];
    }
  }

  /** Reading page after page gives all nine listings in full, under the watermark of the first
      page, and ends: what is left shrinks with every page. */
  method DrainSnapshot<V>(store: seq<seq<Row<V>>>, latestNow: nat, bytes: PageBytes<V>)
    returns (r: Result<seq<SnapshotPage<V>>, Problem>)
    requires IsStore(store)
    ensures AllFitAlone(store, latestNow, bytes) ==> r.Success?
    ensures r.Success? ==>
              var whole := Rest(store, 0, None, latestNow);
              && Entries(r.value) == whole && 0 < |r.value| <= |whole| + 1
              && (forall page <- r.value :: page.latest == latestNow && |page.entries| <= PAGE_MAX_RECORDS)
              && (forall k :: 0 <= k < |r.value| ==> IsNext(r.value, k, whole, latestNow, bytes))
    ensures r.Success? ==>
              var read := Entries(r.value);
              && (forall stage: nat :: stage < 8 ==> OfStage(read, stage) == store[stage])
              && Sorted(OfStage(read, 8)) && (forall row <- OfStage(read, 8) :: row in store[8])
              && (KeyedByCursor(store[8]) ==>
                    forall row <- store[8] :: row in OfStage(read, 8) <==> row.key[0] > latestNow - 100)
  {
    hide Rest, RestOf, AllFitAlone, Sorted, PageFrom, IsNext, Entries, Fits, OfStage, KeyedByCursor;
    var pages: seq<SnapshotPage<V>> := [];
    var position := Position(0, None, None);
    ghost var whole := Rest(store, 0, None, latestNow);
    ghost var left := whole;
    var more := true;
    NothingDrained(whole);
    while more
      invariant position.stage < STAGES && Watermark(position, latestNow) == latestNow
      invariant Entries(pages) + left == whole
      invariant left == if more then Rest(store, position.stage, position.after, latestNow) else []
      invariant forall page <- pages :: page.latest == latestNow && |page.entries| <= PAGE_MAX_RECORDS
      invariant forall k :: 0 <= k < |pages| ==> IsNext(pages, k, whole, latestNow, bytes)
      invariant more ==> |pages| <= |Entries(pages)|
      invariant !more ==> 0 < |pages| <= |Entries(pages)| + 1
      decreases more, |left|
    {
      var page := TakeSnapshot(store, position, latestNow, bytes);
      PageSplitsTheRest(store, position, latestNow, bytes);
      if page.Failure? {
        TooLargeAlone(store, position.stage, position.after, latestNow, bytes);
        return Failure(page.error);
      }
      OneMorePage(pages, page.value, whole, left, latestNow, bytes);
      Regroup(Entries(pages), page.value.entries, RestOf(store, page.value.next, latestNow));
      pages := pages + [page.value];
      more := page.value.next.Some?;
      LeftAfter(store, page.value.next, latestNow);
      left := RestOf(store, page.value.next, latestNow);
      if more { position := page.value.next.value; }
    }
    DrainHoldsTheListings(store, latestNow);
    r := Success(pages);
  }

  lemma DrainHoldsTheListings<V>(store: seq<seq<Row<V>>>, latest: nat)
    requires IsStore(store)
    ensures var whole := Rest(store, 0, None, latest);
            && (forall stage: nat :: stage < 8 ==> OfStage(whole, stage) == store[stage])
            && Sorted(OfStage(whole, 8)) && (forall row <- OfStage(whole, 8) :: row in store[8])
            && (KeyedByCursor(store[8]) ==>
                  forall row <- store[8] :: row in OfStage(whole, 8) <==> row.key[0] > latest - 100)
  {
    hide Rest, OfStage, RowsAfter, Sorted, KeyedByCursor, StageAfter;
    forall stage: nat | stage < 8 ensures OfStage(Rest(store, 0, None, latest), stage) == store[stage] {
      ListingsAreLeftInFull(store, latest, stage);
    }
    RestOfStage(store, 0, None, latest, 8);
    AfterKeepsSorted(store[8], StageAfter(8, None, latest));
    forall row | row in OfStage(Rest(store, 0, None, latest), 8) ensures row in store[8] {
      AfterIsAFilter(store[8], StageAfter(8, None, latest), row);
    }
    if KeyedByCursor(store[8]) { RecentEventsAreLeft(store, latest); }
  }

  lemma NothingDrained<V>(whole: seq<Entry<V>>)
    ensures Entries<V>([]) + whole == whole && Entries<V>([]) == []
  {
  }

  lemma LeftAfter<V>(store: seq<seq<Row<V>>>, next: Option<Position>, latest: nat)
    requires |store| == STAGES && (next.Some? ==> next.value.stage <= STAGES)
    ensures RestOf(store, next, latest) ==
            if next.Some? then Rest(store, next.value.stage, next.value.after, latest) else []
  {
  }

  lemma Regroup<T>(a: seq<T>, b: seq<T>, c: seq<T>)
    ensures a + (b + c) == a + b + c
  {
  }

  // ----- the budget is not exact -----

  function StageName(stage: nat): string {
    match stage
    case 0 => "devices"
    case 1 => "workspaces"
    case 2 => "agents"
    case 3 => "messages"
    case 4 => "leases"
    case 5 => "integrations"
    case 6 => "jobs"
    case 7 => "reconciliations"
    case _ => "recentEvents"
  }

  /** The length of n bytes in base64url. */
  function Base64Length(n: nat): nat { (4 * n + 2) / 3 }

  /** What the cursor to the start of a stage adds to a page: `,"nextCursor":""` around the encoded
      text `{"stage":"...","eventCursor":...}`. */
  function StartLength(stage: nat, latest: nat): nat {
    16 + Base64Length(27 + |StageName(stage)| + |Cursors.Decimal(latest)|)
  }

  /** ASCII text as bytes, with single quotes for the double ones of JSON. */
  function Units(text: string): (bytes: Cursors.Text)
    ensures Cursors.IsBytes(bytes) && |bytes| == |text|
  {
    seq(|text|, i requires 0 <= i < |text| => if text[i] == '\'' then 34 else text[i] as nat % 128)
  }

  /** The position at the start of a stage, as text. */
  function StartText(stage: nat, latest: nat): (bytes: Cursors.Text)
    ensures Cursors.IsBytes(bytes)
  {
    hide Cursors.Decimal, Units, StageName;
    Cursors.DecimalIsDigits(latest);
    Units("{'stage':'" + StageName(stage) + "','eventCursor':") + Cursors.Decimal(latest) + Units("}")
  }

  lemma {:induction false} Base64LengthIsExact(bytes: Cursors.Text)
    requires Cursors.IsBytes(bytes)
    ensures |Cursors.Encode(bytes)| == Base64Length(|bytes|)
    decreases |bytes|
  {
    if |bytes| >= 3 { Base64LengthIsExact(bytes[3..]); }
  }

  lemma StartLengthIsExact(stage: nat, latest: nat)
    ensures StartLength(stage, latest) == |",'nextCursor':'"| + |Cursors.Encode(StartText(stage, latest))| + |"'"|
  {
    hide StageName, Cursors.Decimal, Units;
    Base64LengthIsExact(StartText(stage, latest));
  }

  /** Lengths as the encoding has them: a cursor to a stage's start costs what its text does. */
  ghost predicate PaysForNames<V>(bytes: PageBytes<V>, entries: seq<Entry<V>>, latest: nat) {
    forall stage: nat :: stage < STAGES ==>
      bytes(entries, latest, Some(Position(stage, None, Some(latest)))) ==
      bytes(entries, latest, None) + StartLength(stage, latest)
  }

  function PageLength<V>(page: SnapshotPage<V>, bytes: PageBytes<V>): nat {
    bytes(page.entries, page.latest, page.next)
  }

  /** The records that fit are followed by one of a later stage than the next, and the room they
      leave is enough for the name of the next stage but not for the name of that one. */
  predicate SkipsToALongName<V>(rest: seq<Entry<V>>, latest: nat, bytes: PageBytes<V>) {
    var n := Records(rest, latest, bytes);
    && 0 < n < MostRecords(rest) && rest[n].stage > rest[n - 1].stage + 1
    && var room := PAGE_MAX_BYTES - bytes(rest[..n], latest, None);
       StartLength(rest[n - 1].stage + 1, latest) <= room < StartLength(rest[n].stage, latest)
  }

  /** A served page is over the byte budget exactly if it skips to a stage with a name too long for
      the room left. A page without records is not measured. */
  lemma OverExactlyWhenItSkipsToALongName<V>(
    store: seq<seq<Row<V>>>, position: Position, latest: nat, bytes: PageBytes<V>, page: SnapshotPage<V>)
    requires IsStore(store) && position.stage < STAGES && PaysForNames(bytes, page.entries, latest)
    requires PageFrom(Rest(store, position.stage, position.after, latest), latest, bytes) == Success(page)
    ensures var rest := Rest(store, position.stage, position.after, latest);
            PageLength(page, bytes) > PAGE_MAX_BYTES <==>
            (SkipsToALongName(rest, latest, bytes) || (rest == [] && bytes([], latest, None) > PAGE_MAX_BYTES))
  {
    hide Sorted, Rest, Records, StartLength, PaysForNames;
    var rest := Rest(store, position.stage, position.after, latest);
    if rest != [] {
      var n := Records(rest, latest, bytes);
      RecordsFit(rest, latest, bytes);
      AfterRecords(store, position.stage, position.after, latest, n);
      if rest[n - 1].stage + 1 < STAGES { NamesArePaid(bytes, page.entries, latest, rest[n - 1].stage + 1); }
      if n < MostRecords(rest) && rest[n].stage != rest[n - 1].stage {
        FromItsStage(store, position.stage, position.after, latest, n);
        NamesArePaid(bytes, page.entries, latest, rest[n].stage);
      }
    }
  }

  /** No page with records is over by more than names differ. */
  lemma OverByFifteenBytesAtMost<V>(
    store: seq<seq<Row<V>>>, position: Position, latest: nat, bytes: PageBytes<V>, page: SnapshotPage<V>)
    requires IsStore(store) && position.stage < STAGES && PaysForNames(bytes, page.entries, latest)
    requires PageFrom(Rest(store, position.stage, position.after, latest), latest, bytes) == Success(page)
    ensures page.entries != [] ==> PageLength(page, bytes) <= PAGE_MAX_BYTES + 15
  {
    hide Sorted, Rest, Records, StartLength, PaysForNames;
    OverExactlyWhenItSkipsToALongName(store, position, latest, bytes, page);
    var rest := Rest(store, position.stage, position.after, latest);
    if SkipsToALongName(rest, latest, bytes) {
      var n := Records(rest, latest, bytes);
      FromItsStage(store, position.stage, position.after, latest, n);
      NamesArePaid(bytes, page.entries, latest, rest[n].stage);
      NamesDifferByEleven(rest[n - 1].stage + 1, rest[n].stage, latest);
    }
  }

  lemma RecordsFit<V>(rest: seq<Entry<V>>, latest: nat, bytes: PageBytes<V>)
    requires Records(rest, latest, bytes) > 0
    ensures Fits(rest, Records(rest, latest, bytes), latest, bytes)
  {
    hide Fits;
    RecordsBounds(rest, latest, bytes, 0);
  }

  lemma NamesArePaid<V>(bytes: PageBytes<V>, entries: seq<Entry<V>>, latest: nat, stage: nat)
    requires PaysForNames(bytes, entries, latest) && stage < STAGES
    ensures bytes(entries, latest, Some(Position(stage, None, Some(latest)))) ==
            bytes(entries, latest, None) + StartLength(stage, latest)
  {
  }

  lemma NamesDifferByEleven(stage: nat, other: nat, latest: nat)
    requires stage < STAGES && other < STAGES
    ensures StartLength(other, latest) <= StartLength(stage, latest) + 15
  {
    NameLengths(stage);
    NameLengths(other);
  }

  lemma NameLengths(stage: nat)
    requires stage < STAGES
    ensures 4 <= |StageName(stage)| <= 15
  {
  }

  /** No listing is empty between two that are not. */
  ghost predicate NoGaps<V>(store: seq<seq<Row<V>>>)
    requires |store| == STAGES
  {
    forall a, b, c :: 0 <= a < b < c < STAGES && store[a] != [] && store[c] != [] ==> store[b] != []
  }

  lemma WithoutGapsPagesFit<V>(
    store: seq<seq<Row<V>>>, position: Position, latest: nat, bytes: PageBytes<V>, page: SnapshotPage<V>)
    requires IsStore(store) && position.stage < STAGES && NoGaps(store) && PaysForNames(bytes, page.entries, latest)
    requires PageFrom(Rest(store, position.stage, position.after, latest), latest, bytes) == Success(page)
    requires page.entries != []
    ensures PageLength(page, bytes) <= PAGE_MAX_BYTES
  {
    hide Sorted, Rest, Records, PageLength, PaysForNames;
    OverExactlyWhenItSkipsToALongName(store, position, latest, bytes, page);
    var rest := Rest(store, position.stage, position.after, latest);
    if SkipsToALongName(rest, latest, bytes) {
      ASkipIsAGap(store, position.stage, position.after, latest, Records(rest, latest, bytes));
      assert false;
    }
  }

  /** If two records that follow each other are not of the same stage or neighbouring ones, the
      listing after the first one's is empty. */
  lemma ASkipIsAGap<V>(store: seq<seq<Row<V>>>, stage: nat, after: Option<Key>, latest: nat, n: nat)
    requires IsStore(store) && stage <= STAGES && 0 < n < |Rest(store, stage, after, latest)|
    requires var rest := Rest(store, stage, after, latest); rest[n].stage > rest[n - 1].stage + 1
    ensures !NoGaps(store)
  {
    hide Sorted, Rest, StageRows;
    var rest := Rest(store, stage, after, latest);
    var a, c := rest[n - 1].stage, rest[n].stage;
    FromItsStage(store, stage, after, latest, n - 1);
    FromItsStage(store, stage, after, latest, n);
    AfterRecords(store, stage, after, latest, n);
    SkipToFirst(store, a + 1, latest);
    NoRowsAtAll(store, a + 1, latest);
    assert store[a] != [] && store[c] != [] && store[a + 1] == [];
  }

  lemma NoRowsAtAll<V>(store: seq<seq<Row<V>>>, stage: nat, latest: nat)
    requires |store| == STAGES && stage < RECENT_EVENTS && StageRows(store, stage, None, latest) == []
    ensures store[stage] == []
  {
  }

  // ----- a store with a page that is over the budget -----

  function HexDigit(d: nat): nat { if d < 10 then 48 + d else 87 + d }

  /** The identifiers of the messages, up to the last digit. */
  const MESSAGE_KEY: Key := Units("2026-01-01T00:00:00.000Z") + [0] + Units("opm_0000000000000000000000000000000")

  /** Sixteen operator messages, the values of rows being their encoded lengths. Text of 32 KiB is
      allowed in a message (packages/core/src/store.ts:51). */
  const MESSAGES: seq<Row<nat>> := seq(16, d requires 0 <= d < 16 => Row(MESSAGE_KEY + [HexDigit(d)], 32_650))

  const EVENTS: seq<Row<nat>> := seq(21, i requires 0 <= i < 21 => Row([i + 1], 200))

  /** A device, its workspace and agent, the messages to it, a queued integration and no lease. */
  const CROWDED: seq<seq<Row<nat>>> :=
    [[Row([1], 500)], [Row([1], 450)], [Row([1], 460)], MESSAGES, [], [Row([1], 700)], [], [], EVENTS]

  const BEFORE_MESSAGES: seq<Entry<nat>> := [Entry(0, Row([1], 500)), Entry(1, Row([1], 450)), Entry(2, Row([1], 460))]

  const UNTIL_LEASES: seq<Entry<nat>> := BEFORE_MESSAGES + Tagged(3, MESSAGES)

  /** Records with a comma between those of one collection. */
  function RecordsLength(entries: seq<Entry<nat>>): nat {
    if entries == [] then 0
    else
      var before, last := entries[..|entries| - 1], entries[|entries| - 1];
      var comma := if before != [] && before[|before| - 1].stage == last.stage then 1 else 0;
      RecordsLength(before) + comma + last.row.value
  }

  function KeyLength(key: Key): nat { if |key| == 1 then |Cursors.Decimal(key[0])| else Base64Length(|key|) }

  /** The cursor `{"stage":"...","after":"...","eventCursor":...}` in its field. */
  function CursorLength(position: Position, latest: nat): nat {
    var after := if position.after.None? then 0 else 11 + KeyLength(position.after.value);
    16 + Base64Length(27 + |StageName(position.stage)| + |Cursors.Decimal(latest)| + after)
  }

  /** A response whose other fields take 400 bytes. */
  function EncodedLength(entries: seq<Entry<nat>>, latest: nat, next: Option<Position>): nat {
    400 + RecordsLength(entries) + if next.None? then 0 else CursorLength(next.value, latest)
  }

  lemma {:induction false} CommonPrefix(prefix: Key, a: nat, b: nat)
    requires a < b
    ensures Before(prefix + [a], prefix + [b])
  {
    if prefix != [] {
      CommonPrefix(prefix[1..], a, b);
      assert (prefix + [a])[1..] == prefix[1..] + [a] && (prefix + [b])[1..] == prefix[1..] + [b];
    }
  }

  lemma CrowdedIsAStore()
    ensures IsStore(CROWDED)
  {
    forall i, j | 0 <= i < j < 16 ensures Before(MESSAGES[i].key, MESSAGES[j].key) {
      CommonPrefix(MESSAGE_KEY, HexDigit(i), HexDigit(j));
    }
    assert Sorted(MESSAGES);
    assert Sorted(EVENTS);
  }

  lemma CrowdedStage(stage: nat)
    requires stage < RECENT_EVENTS
    ensures Rest(CROWDED, stage, None, 21) == Tagged(stage, CROWDED[stage]) + Rest(CROWDED, stage + 1, None, 21)
  {
    hide RowsAfter;
    NoCursorListsAll(CROWDED[stage]);
  }

  lemma CrowdedRest()
    ensures var rest := Rest(CROWDED, 0, None, 21);
            |rest| >= 20 && rest[..19] == UNTIL_LEASES && rest[19] == Entry(5, Row([1], 700))
  {
    hide Rest;
    CrowdedStage(0);
    CrowdedStage(1);
    CrowdedStage(2);
    CrowdedStage(3);
    CrowdedStage(4);
    CrowdedStage(5);
    var later := Rest(CROWDED, 6, None, 21);
    assert Rest(CROWDED, 0, None, 21) == UNTIL_LEASES + [Entry(5, Row([1], 700))] + later;
  }

  lemma FirstLengths()
    ensures RecordsLength(BEFORE_MESSAGES[..1]) == 500 && RecordsLength(BEFORE_MESSAGES[..2]) == 950
    ensures RecordsLength(BEFORE_MESSAGES) == 1_410
  {
    var b := BEFORE_MESSAGES;
    assert b[..1][..0] == [] && b[..2][..1] == b[..1] && b[..|b| - 1] == b[..2];
  }

  lemma {:induction false} MessagesLength(m: nat)
    requires m <= 16
    ensures RecordsLength(UNTIL_LEASES[..3 + m]) == 1_410 + 32_650 * m + (if m == 0 then 0 else m - 1)
  {
    var entries := UNTIL_LEASES[..3 + m];
    if m == 0 {
      FirstLengths();
      assert entries == BEFORE_MESSAGES;
    } else {
      MessagesLength(m - 1);
      assert entries[..|entries| - 1] == UNTIL_LEASES[..3 + m - 1];
    }
  }

  lemma PricesAreExact()
    ensures StartLength(4, 21) == 63 && StartLength(5, 21) == 71
    ensures forall stage | 0 <= stage < STAGES ::
              CursorLength(Position(stage, None, Some(21)), 21) == StartLength(stage, 21) <= 75
    ensures forall m | 0 <= m < 16 :: CursorLength(Position(3, Some(MESSAGES[m].key), Some(21)), 21) == 190
  {
    assert Cursors.Decimal(21) == [50, 49];
  }

  /** The page of the first `n` records fits, and the last one has no byte left. */
  lemma UntilLeasesFit(rest: seq<Entry<nat>>, n: nat)
    requires |rest| >= 20 && rest[..19] == UNTIL_LEASES && rest[19].stage == 5 && 0 < n <= 19
    ensures Fits(rest, n, 21, EncodedLength)
    ensures n == 19 ==> EncodedLength(rest[..n], 21, PricedCursor(rest, n, 21)) == PAGE_MAX_BYTES
  {
    hide RecordsLength, CursorLength, StartLength;
    PricesAreExact();
    assert rest[..n] == UNTIL_LEASES[..n] && rest[n - 1] == UNTIL_LEASES[n - 1];
    if n < 3 {
      FirstLengths();
      assert UNTIL_LEASES[..n] == BEFORE_MESSAGES[..n];
    } else {
      MessagesLength(n - 3);
    }
    if n < 19 { assert rest[n] == rest[..19][n] == UNTIL_LEASES[n]; }
  }

  lemma CrowdedPage()
    ensures PageFrom(Rest(CROWDED, 0, None, 21), 21, EncodedLength) ==
            Success(SnapshotPage(UNTIL_LEASES, 21, Some(Position(5, None, Some(21)))))
  {
    hide Rest, Fits, Records, RecordsLength;
    var rest := Rest(CROWDED, 0, None, 21);
    CrowdedRest();
    forall m | 0 < m <= 19 ensures Fits(rest, m, 21, EncodedLength) { UntilLeasesFit(rest, m); }
    OneMoreIsTooMany(rest);
    RecordsAreAllThatFit(rest, 21, EncodedLength, 19);
    assert rest[18] == rest[..19][18] == UNTIL_LEASES[18];
  }

  lemma OneMoreIsTooMany(rest: seq<Entry<nat>>)
    requires |rest| >= 20 && rest[..19] == UNTIL_LEASES && rest[19] == Entry(5, Row([1], 700))
    ensures !Fits(rest, 20, 21, EncodedLength)
  {
    hide CursorLength, StartLength;
    assert rest[..20][..19] == UNTIL_LEASES == UNTIL_LEASES[..19];
    MessagesLength(16);
  }

  lemma EncodingPaysForNames(entries: seq<Entry<nat>>, latest: nat)
    ensures PaysForNames(EncodedLength, entries, latest)
  {
  }

  /** The device, the workspace, the agent and the messages fill the first page up to the last byte,
      as it is measured with a cursor to the leases. It is returned with one to the integrations,
      eight bytes over. */
  method APageIsEightBytesOver() returns (page: SnapshotPage<nat>)
    ensures IsStore(CROWDED)
    ensures page == SnapshotPage(UNTIL_LEASES, 21, Some(Position(5, None, Some(21))))
    ensures PageLength(page, EncodedLength) == PAGE_MAX_BYTES + 8
  {
    hide PageFrom, Rest, RecordsLength, CursorLength, StartLength, IsStore;
    CrowdedIsAStore();
    CrowdedPage();
    var r := TakeSnapshot(CROWDED, Position(0, None, None), 21, EncodedLength);
    page := r.value;
    assert UNTIL_LEASES == UNTIL_LEASES[..19];
    MessagesLength(16);
    PricesAreExact();
  }
}
