/** One Node's event stream as the Hub serves it (apps/hub/src/app.ts). The pump is a
    suspended function: it runs up to its next write and is resumed when that write, or the
    replay it waits for, has finished. Between two such steps anything may happen: rows are
    written and pruned, cursors are published, keepalives fall due, the connection closes. */
module EventStream {
  import opened JobLog
  import opened AuditRetention

  const SSE_REPLAY_MAX_EVENTS: nat := 500
  const SSE_REPLAY_MAX_BYTES: nat := 256 * 1024

  datatype Frame = Coordination(row: AuditRow) | Reset(latest: nat) | Keepalive

  /** Where the pump waits, if it does. */
  datatype Wait =
    | Nowhere
    | ResetWritten(latest: nat)
    | RowWritten(rows: seq<AuditRow>, next: nat)
    | ReplayReturned
    | KeepaliveWritten

  datatype State = State(
    cursor: nat, running: bool, replayPending: bool, keepalivePending: bool, closed: bool, wait: Wait, wire: seq<Frame>)

  /** Encoded length of a row's frame. */
  type Size = AuditRow -> nat

  function ReplayBytes(rows: seq<AuditRow>, size: Size): nat {
    if rows == [] then 0 else ReplayBytes(rows[..|rows| - 1], size) + size(rows[|rows| - 1])
  }

  predicate OutsideBounds(db: Db, cursor: nat)
    requires db.nextCursor > 0
  {
    cursor + 1 < Earliest(db) || cursor > Latest(db)
  }

  predicate OverReplayLimit(db: Db, cursor: nat, rows: seq<AuditRow>, size: Size)
    requires db.nextCursor > 0
  {
    var last := if rows == [] then cursor else rows[|rows| - 1].Cursor();
    ReplayBytes(rows, size) > SSE_REPLAY_MAX_BYTES || (|rows| == SSE_REPLAY_MAX_EVENTS && last < Latest(db))
  }

  function WriteReset(db: Db, s: State): State
    requires db.nextCursor > 0
  {
    s.(wait := ResetWritten(Latest(db)), wire := s.wire + [Reset(Latest(db))])
  }

  function WriteRow(s: State, rows: seq<AuditRow>, next: nat): State
    requires next < |rows|
  {
    s.(wait := RowWritten(rows, next), wire := s.wire + [Coordination(rows[next])])
  }

  /** replay(), up to its first write. */
  function Replay(db: Db, s: State, size: Size): State
    requires db.nextCursor > 0
  {
    if OutsideBounds(db, s.cursor) then WriteReset(db, s)
    else
      var rows := ListAuditEvents(db, s.cursor, SSE_REPLAY_MAX_EVENTS);
      if OverReplayLimit(db, s.cursor, rows, size) then WriteReset(db, s)
      else if rows == [] then s.(wait := ReplayReturned)
      else WriteRow(s, rows, 0)
  }

  /** The pump's loop, up to its next wait or its end. */
  function Loop(db: Db, s: State, size: Size): State
    requires db.nextCursor > 0
  {
    if s.closed || !(s.replayPending || s.keepalivePending) then s.(running := false, wait := Nowhere)
    else if s.replayPending then Replay(db, s.(replayPending := false), size)
    else s.(keepalivePending := false, wait := KeepaliveWritten, wire := s.wire + [Keepalive])
  }

  function Pump(db: Db, s: State, size: Size): State
    requires db.nextCursor > 0
  {
    if s.running || s.closed then s else Loop(db, s.(running := true), size)
  }

  /** What the pump waited for has happened. */
  function Resume(db: Db, s: State, size: Size): State
    requires db.nextCursor > 0
  {
    match s.wait
    case Nowhere => s
    case ResetWritten(latest) => s.(cursor := latest, wait := ReplayReturned)
    case RowWritten(rows, next) =>
      if next >= |rows| then s.(wait := ReplayReturned)
      else
        var moved := s.(cursor := rows[next].Cursor());
        if next + 1 < |rows| then WriteRow(moved, rows, next + 1) else moved.(wait := ReplayReturned)
    case ReplayReturned => Loop(db, s, size)
    case KeepaliveWritten => Loop(db, s, size)
  }

  /** streamEvents(): subscribe, then pump. */
  function Open(db: Db, cursor: nat, size: Size): State
    requires db.nextCursor > 0
  {
    Pump(db, State(cursor, false, true, false, false, Nowhere, []), size)
  }

  /** What can happen to a stream between two writes of rows. `Publish` carries the cursor the
      publisher read; `WriteFails` is a write that throws. */
  datatype Event = Resumed | Publish(latest: nat) | KeepaliveDue | Close | WriteFails

  function React(db: Db, s: State, event: Event, size: Size): State
    requires db.nextCursor > 0
  {
    match event
    case Resumed => Resume(db, s, size)
    case Publish(_) => if s.closed then s else Pump(db, s.(replayPending := true), size)
    case KeepaliveDue => if s.closed then s else Pump(db, s.(keepalivePending := true), size)
    case Close => s.(closed := true)
    case WriteFails => if s.wait.Nowhere? then s else s.(closed := true, running := false, wait := Nowhere)
  }

  // ----- what the Node is shown -----

  /** The cursor a reader is at who started at `start` and has read these frames. */
  function Position(start: nat, wire: seq<Frame>): nat {
    if wire == [] then start
    else
      match wire[|wire| - 1]
      case Coordination(row) => row.Cursor()
      case Reset(latest) => latest
      case Keepalive => Position(start, wire[..|wire| - 1])
  }

  /** The frame continues a reader at `position`: the next row of the history, or a reset that
      does not go back. */
  predicate Continues(position: nat, frame: Frame, history: seq<AuditRow>) {
    match frame
    case Coordination(row) => position < |history| && row == history[position]
    case Reset(latest) => position <= latest <= |history|
    case Keepalive => true
  }

  ghost predicate InOrder(start: nat, wire: seq<Frame>, history: seq<AuditRow>) {
    forall k :: 0 <= k < |wire| ==> Continues(Position(start, wire[..k]), wire[k], history)
  }

  /** The rows still to be written by the replay that is under way. */
  ghost predicate RowsAhead(rows: seq<AuditRow>, next: nat, cursor: nat, history: seq<AuditRow>) {
    && next < |rows| && cursor + |rows| - next <= |history|
    && forall i :: next <= i < |rows| ==> rows[i] == history[cursor + i - next]
  }

  /** Where the replay under way will leave the cursor, and else where it is. */
  function Target(s: State): nat {
    match s.wait
    case ResetWritten(latest) => latest
    case RowWritten(rows, next) => if next < |rows| then s.cursor + (|rows| - next) else s.cursor
    case _ => s.cursor
  }

  ghost predicate Sound(db: Db, clock: Millis, start: nat, published: nat, s: State) {
    && Retained(db, clock) && published <= |db.history| && start <= |db.history|
    && (s.running <==> !s.wait.Nowhere?)
    && (!s.closed && !s.running ==> !s.replayPending && !s.keepalivePending)
    && (!s.closed && !s.replayPending ==> Target(s) >= published)
    && s.cursor <= |db.history|
    && InOrder(start, s.wire, db.history)
    && (match s.wait
        case ResetWritten(latest) => s.cursor <= latest <= |db.history| && Position(start, s.wire) == latest
        case RowWritten(rows, next) =>
          && RowsAhead(rows, next, s.cursor, db.history) && Position(start, s.wire) == s.cursor + 1
        case Nowhere => s.closed || Position(start, s.wire) == s.cursor
        case _ => Position(start, s.wire) == s.cursor)
  }

  lemma OneMoreFrame(start: nat, wire: seq<Frame>, frame: Frame, history: seq<AuditRow>)
    requires InOrder(start, wire, history) && Continues(Position(start, wire), frame, history)
    ensures InOrder(start, wire + [frame], history)
    ensures frame.Keepalive? ==> Position(start, wire + [frame]) == Position(start, wire)
  {
    var more := wire + [frame];
    assert more[..|wire|] == wire;
    forall k | 0 <= k < |more| ensures Continues(Position(start, more[..k]), more[k], history) {
      if k < |wire| { assert more[..k] == wire[..k]; }
    }
  }

  lemma KeepaliveContinues(start: nat, wire: seq<Frame>, history: seq<AuditRow>)
    requires InOrder(start, wire, history)
    ensures InOrder(start, wire + [Keepalive], history) && Position(start, wire + [Keepalive]) == Position(start, wire)
  {
    hide InOrder;
    OneMoreFrame(start, wire, Keepalive, history);
  }

  lemma ResetContinues(start: nat, wire: seq<Frame>, latest: nat, history: seq<AuditRow>)
    requires InOrder(start, wire, history) && Position(start, wire) <= latest <= |history|
    ensures InOrder(start, wire + [Reset(latest)], history) && Position(start, wire + [Reset(latest)]) == latest
  {
    hide InOrder;
    OneMoreFrame(start, wire, Reset(latest), history);
  }

  lemma RowContinues(db: Db, clock: Millis, start: nat, wire: seq<Frame>, row: AuditRow)
    requires Retained(db, clock) && InOrder(start, wire, db.history)
    requires Position(start, wire) < |db.history| && row == db.history[Position(start, wire)]
    ensures InOrder(start, wire + [Coordination(row)], db.history)
    ensures Position(start, wire + [Coordination(row)]) == row.Cursor() == Position(start, wire) + 1
  {
    hide InOrder;
    OneMoreFrame(start, wire, Coordination(row), db.history);
  }

  /** A stream keeps its promises as the history grows and old rows go. */
  lemma {:induction false} HistoryGrows(start: nat, wire: seq<Frame>, history: seq<AuditRow>, more: seq<AuditRow>)
    requires InOrder(start, wire, history) && history <= more
    ensures InOrder(start, wire, more)
  {
    forall k | 0 <= k < |wire| ensures Continues(Position(start, wire[..k]), wire[k], more) {
      assert Continues(Position(start, wire[..k]), wire[k], history);
    }
  }

  lemma DbStepKeepsSound(db: Db, clock: Millis, start: nat, published: nat, s: State, now: Millis, op: Op)
    requires Sound(db, clock, start, published, s) && clock <= now
    ensures Sound(Step(db, now, op).db, now, start, published, s)
  {
    hide Step, Retained, InOrder;
    StepKeepsRetained(db, clock, now, op);
    HistoryGrows(start, s.wire, db.history, Step(db, now, op).db.history);
  }

  /** What a replay starts with: nothing is waited for, and the reader is at the cursor. */
  ghost predicate Ready(db: Db, clock: Millis, start: nat, s: State) {
    && Retained(db, clock) && start <= |db.history| && s.cursor <= |db.history|
    && InOrder(start, s.wire, db.history) && Position(start, s.wire) == s.cursor
  }

  lemma ReplayIsSound(db: Db, clock: Millis, start: nat, published: nat, s: State, size: Size)
    requires Ready(db, clock, start, s) && published <= |db.history| && s.running && !s.closed
    ensures Sound(db, clock, start, published, Replay(db, s, size))
  {
    hide InOrder, Retained, Earliest, ListAuditEvents, ReplayBytes, Position, Continues;
    RetainedNumbers(db, clock);
    EarliestIsAfterThePruned(db, clock);
    if OutsideBounds(db, s.cursor) {
      ResetContinues(start, s.wire, Latest(db), db.history);
    } else {
      ListingHasNoGaps(db, clock, s.cursor, SSE_REPLAY_MAX_EVENTS);
      var rows := ListAuditEvents(db, s.cursor, SSE_REPLAY_MAX_EVENTS);
      if rows != [] { NumberedAt(db, clock, s.cursor + |rows| - 1); }
      if OverReplayLimit(db, s.cursor, rows, size) {
        ResetContinues(start, s.wire, Latest(db), db.history);
      } else if rows != [] {
        RowContinues(db, clock, start, s.wire, rows[0]);
      }
    }
  }

  lemma RetainedNumbers(db: Db, clock: Millis)
    requires Retained(db, clock)
    ensures db.nextCursor == |db.history| + 1
  {
  }

  lemma NumberedAt(db: Db, clock: Millis, i: nat)
    requires Retained(db, clock) && i < |db.history|
    ensures db.history[i].Cursor() == i + 1
  {
  }

  lemma LoopIsSound(db: Db, clock: Millis, start: nat, published: nat, s: State, size: Size)
    requires Ready(db, clock, start, s) && published <= |db.history| && s.running
    requires !s.closed && !s.replayPending ==> s.cursor >= published
    ensures Sound(db, clock, start, published, Loop(db, s, size))
  {
    hide InOrder, Retained, Replay, RowsAhead, Position, Continues;
    if !s.closed && s.replayPending {
      ReplayIsSound(db, clock, start, published, s.(replayPending := false), size);
    } else if !s.closed && s.keepalivePending {
      KeepaliveContinues(start, s.wire, db.history);
    }
  }

  lemma ResumeIsSound(db: Db, clock: Millis, start: nat, published: nat, s: State, size: Size)
    requires Sound(db, clock, start, published, s)
    ensures Sound(db, clock, start, published, Resume(db, s, size))
  {
    hide InOrder, Retained, Loop, Replay, Position, Continues;
    RetainedNumbers(db, clock);
    match s.wait
    case Nowhere => {}
    case ResetWritten(_) => {}
    case RowWritten(rows, next) =>
      NumberedAt(db, clock, s.cursor);
      if next + 1 < |rows| {
        assert rows[next + 1] == db.history[s.cursor + 1];
        RowContinues(db, clock, start, s.wire, rows[next + 1]);
      }
    case _ => if s.running { LoopIsSound(db, clock, start, published, s, size); }
  }

  lemma PumpIsSound(db: Db, clock: Millis, start: nat, published: nat, s: State, now: nat, size: Size)
    requires Sound(db, clock, start, published, s) && published <= now <= |db.history| && !s.closed
    ensures Sound(db, clock, start, now, Pump(db, s.(replayPending := true), size))
    ensures Sound(db, clock, start, published, Pump(db, s.(keepalivePending := true), size))
  {
    hide InOrder, Retained, Loop, Replay;
    RetainedNumbers(db, clock);
    if !s.running {
      LoopIsSound(db, clock, start, now, s.(replayPending := true, running := true), size);
      LoopIsSound(db, clock, start, published, s.(keepalivePending := true, running := true), size);
    }
  }

  /** Every published cursor so far, after the event. */
  function Published(published: nat, event: Event): nat {
    if event.Publish? && event.latest > published then event.latest else published
  }

  /** A publisher reads the cursor it publishes from the table. */
  lemma ReactIsSound(db: Db, clock: Millis, start: nat, published: nat, s: State, event: Event, size: Size)
    requires Sound(db, clock, start, published, s) && (event.Publish? ==> event.latest <= |db.history|)
    ensures Sound(db, clock, start, Published(published, event), React(db, s, event, size))
  {
    hide InOrder, Retained, Loop, Replay, Resume, Pump;
    RetainedNumbers(db, clock);
    match event
    case Resumed => ResumeIsSound(db, clock, start, published, s, size);
    case Publish(_) => if !s.closed { PumpIsSound(db, clock, start, published, s, Published(published, event), size); }
    case KeepaliveDue => if !s.closed { PumpIsSound(db, clock, start, published, s, published, size); }
    case Close => {}
    case WriteFails => {}
  }

  lemma OpenIsSound(db: Db, clock: Millis, start: nat, published: nat, size: Size)
    requires Retained(db, clock) && start <= |db.history| && published <= |db.history|
    ensures Sound(db, clock, start, published, Open(db, start, size))
  {
    hide Retained, Loop, Replay;
    RetainedNumbers(db, clock);
    LoopIsSound(db, clock, start, published, State(start, true, true, false, false, Nowhere, []), size);
  }

  // ----- a reader who claims to be ahead of the history -----

  /** Where a stream is served from: a cursor past the history is first reset to the latest. */
  function ServedFrom(db: Db, start: nat): nat
    requires db.nextCursor > 0
  {
    if start <= Latest(db) then start else Latest(db)
  }

  /** The stream is sound as one from `from`; until its first reset is written the cursor may still
      be the one the reader came with. */
  ghost predicate Serves(db: Db, clock: Millis, from: nat, published: nat, s: State) {
    || Sound(db, clock, from, published, s)
    || ((s.wait == ResetWritten(from) || (s.closed && s.wait.Nowhere?))
        && Sound(db, clock, from, published, s.(cursor := from)))
  }

  lemma OpenServes(db: Db, clock: Millis, start: nat, published: nat, size: Size)
    requires Retained(db, clock) && published <= |db.history|
    ensures db.nextCursor > 0 && Serves(db, clock, ServedFrom(db, start), published, Open(db, start, size))
  {
    hide Retained, Earliest, ListAuditEvents, InOrder;
    RetainedNumbers(db, clock);
    if start <= |db.history| {
      OpenIsSound(db, clock, start, published, size);
    } else {
      NothingIsInOrder(|db.history|, db.history);
      ResetContinues(|db.history|, [], |db.history|, db.history);
      assert [] + [Reset(|db.history|)] == [Reset(|db.history|)];
    }
  }

  lemma NothingIsInOrder(start: nat, history: seq<AuditRow>)
    ensures InOrder(start, [], history) && Position(start, []) == start
  {
  }

  lemma DbStepServes(db: Db, clock: Millis, from: nat, published: nat, s: State, now: Millis, op: Op)
    requires Serves(db, clock, from, published, s) && clock <= now
    ensures Serves(Step(db, now, op).db, now, from, published, s)
  {
    hide Sound, Step;
    if Sound(db, clock, from, published, s) {
      DbStepKeepsSound(db, clock, from, published, s, now, op);
    } else {
      DbStepKeepsSound(db, clock, from, published, s.(cursor := from), now, op);
    }
  }

  /** Every event at a stream keeps it, wherever its reader started. */
  lemma ReactServes(db: Db, clock: Millis, from: nat, published: nat, s: State, event: Event, size: Size)
    requires Serves(db, clock, from, published, s) && (event.Publish? ==> event.latest <= |db.history|)
    ensures db.nextCursor > 0 && Serves(db, clock, from, Published(published, event), React(db, s, event, size))
  {
    hide Sound, Loop, Replay;
    ServedIsNumbered(db, clock, from, published, s);
    if Sound(db, clock, from, published, s) {
      ReactIsSound(db, clock, from, published, s, event, size);
    } else {
      ReactIsSound(db, clock, from, published, s.(cursor := from), event, size);
      SoundRuns(db, clock, from, published, s.(cursor := from));
      WaitingIgnoresTheCursor(db, s, from, event, size);
    }
  }

  lemma ServedIsNumbered(db: Db, clock: Millis, from: nat, published: nat, s: State)
    requires Serves(db, clock, from, published, s)
    ensures Retained(db, clock) && db.nextCursor == |db.history| + 1 && published <= |db.history|
  {
  }

  lemma SoundRuns(db: Db, clock: Millis, from: nat, published: nat, s: State)
    requires Sound(db, clock, from, published, s)
    ensures s.running <==> !s.wait.Nowhere?
  {
  }

  lemma WaitingIgnoresTheCursor(db: Db, s: State, from: nat, event: Event, size: Size)
    requires db.nextCursor > 0 && (s.running <==> !s.wait.Nowhere?)
    requires s.wait == ResetWritten(from) || (s.closed && s.wait.Nowhere?)
    ensures var after, other := React(db, s, event, size), React(db, s.(cursor := from), event, size);
            || after == other
            || (after.(cursor := from) == other
                && (after.wait == ResetWritten(from) || (after.closed && after.wait.Nowhere?)))
  {
    hide Loop;
  }

  lemma ServedPumpIsAwake(db: Db, clock: Millis, from: nat, published: nat, s: State)
    requires Serves(db, clock, from, published, s)
    ensures !s.running && !s.closed ==> published <= s.cursor <= |db.history|
    ensures !s.running && !s.closed ==> !s.replayPending && !s.keepalivePending
    ensures s.running <==> !s.wait.Nowhere?
  {
  }

  // ----- keepalives and closing -----

  /** A keepalive due at an idle stream is written at once, and one due while the pump is busy is
      kept for it. */
  lemma KeepalivesAreWritten(db: Db, s: State, size: Size)
    requires db.nextCursor > 0 && !s.closed
    ensures var after := React(db, s, KeepaliveDue, size);
            if s.running then after == s.(keepalivePending := true)
            else if s.replayPending then after.keepalivePending
            else after == s.(running := true, keepalivePending := false, wait := KeepaliveWritten,
                             wire := s.wire + [Keepalive])
  {
    hide Replay;
    if !s.running && s.replayPending { ReplayKeepsPending(db, s.(running := true, replayPending := false,
                                                                 keepalivePending := true), size); }
  }

  lemma ReplayKeepsPending(db: Db, s: State, size: Size)
    requires db.nextCursor > 0
    ensures Replay(db, s, size).keepalivePending == s.keepalivePending
  {
  }

  /** The rows that a replay under way has yet to write. */
  function RowsLeft(s: State): seq<Frame> {
    match s.wait
    case RowWritten(rows, next) => if next < |rows| then Framed(rows[next + 1..]) else []
    case _ => []
  }

  function Framed(rows: seq<AuditRow>): seq<Frame> {
    seq(|rows|, i requires 0 <= i < |rows| => Coordination(rows[i]))
  }

  /** It writes the next row of the replay under way, or nothing. */
  predicate OnlyFinishes(s: State, after: State) {
    && after.closed
    && ((after.wire == s.wire && (RowsLeft(after) == RowsLeft(s) || RowsLeft(after) == []))
        || (RowsLeft(s) != [] && after.wire == s.wire + [RowsLeft(s)[0]] && RowsLeft(after) == RowsLeft(s)[1..]))
  }

  /** Closing changes nothing else, and a closed stream can only finish the replay under way. */
  lemma ClosedStreamsOnlyFinish(db: Db, s: State, event: Event, size: Size)
    requires db.nextCursor > 0
    ensures React(db, s, Close, size) == s.(closed := true)
    ensures s.closed ==> OnlyFinishes(s, React(db, s, event, size))
  {
    hide Replay, Framed;
    if s.closed && event.Resumed? && s.wait.RowWritten? { ClosedReplayGoesOn(db, s, s.wait.rows, s.wait.next, size); }
  }

  lemma ClosedReplayGoesOn(db: Db, s: State, rows: seq<AuditRow>, next: nat, size: Size)
    requires db.nextCursor > 0 && s.closed && s.wait == RowWritten(rows, next)
    ensures OnlyFinishes(s, Resume(db, s, size))
  {
    hide Replay, Loop;
    if next + 1 < |rows| {
      assert Framed(rows[next + 1..])[1..] == Framed(rows[next + 2..]);
    } else if next < |rows| {
      assert Framed(rows[next + 1..]) == [];
    }
  }

  // ----- the stream as one interleaving -----

  /** One step of the world around an open stream. */
  datatype Turn = Commit(now: Millis, op: Op) | Stream(event: Event)

  datatype World = World(db: Db, clock: Millis, published: nat, s: State)

  ghost function Turned(w: World, turn: Turn, size: Size): World
    requires w.db.nextCursor > 0
  {
    match turn
    case Commit(now, op) => World(Step(w.db, now, op).db, now, w.published, w.s)
    case Stream(event) => World(w.db, w.clock, Published(w.published, event), React(w.db, w.s, event, size))
  }

  /** The clock does not run backwards, and published cursors come from the table. */
  predicate Possible(w: World, turn: Turn)
  {
    match turn
    case Commit(now, _) => w.clock <= now
    case Stream(event) => event.Publish? ==> event.latest <= |w.db.history|
  }

  /** A stream opened at any cursor, at any retained table. */
  ghost predicate Opened(w: World, start: nat, size: Size) {
    && Retained(w.db, w.clock) && w.published <= |w.db.history|
    && w.db.nextCursor > 0 && w.s == Open(w.db, start, size)
  }

  ghost predicate IsRun(ws: seq<World>, turns: seq<Turn>, start: nat, size: Size) {
    && |ws| == |turns| + 1 && Opened(ws[0], start, size)
    && forall i :: 0 <= i < |turns| ==>
      ws[i].db.nextCursor > 0 && Possible(ws[i], turns[i]) && ws[i + 1] == Turned(ws[i], turns[i], size)
  }

  ghost predicate SoundWorld(w: World, start: nat) { Sound(w.db, w.clock, start, w.published, w.s) }

  lemma TurnedIsSound(w: World, start: nat, turn: Turn, size: Size)
    requires w.db.nextCursor > 0 && SoundWorld(w, start) && Possible(w, turn)
    ensures SoundWorld(Turned(w, turn, size), start)
  {
    hide Sound, Step, React;
    match turn
    case Commit(now, op) => DbStepKeepsSound(w.db, w.clock, start, w.published, w.s, now, op);
    case Stream(event) =>
      SoundIsRetained(w, start);
      ReactIsSound(w.db, w.clock, start, w.published, w.s, event, size);
  }

  lemma SoundIsRetained(w: World, start: nat)
    requires SoundWorld(w, start)
    ensures Retained(w.db, w.clock)
  {
  }

  ghost predicate ServedWorld(w: World, from: nat) { Serves(w.db, w.clock, from, w.published, w.s) }

  lemma TurnedIsServed(w: World, from: nat, turn: Turn, size: Size)
    requires w.db.nextCursor > 0 && ServedWorld(w, from) && Possible(w, turn)
    ensures ServedWorld(Turned(w, turn, size), from)
  {
    hide Serves, Step, React;
    match turn
    case Commit(now, op) => DbStepServes(w.db, w.clock, from, w.published, w.s, now, op);
    case Stream(event) => ReactServes(w.db, w.clock, from, w.published, w.s, event, size);
  }

  lemma {:induction false} RunStaysServed(ws: seq<World>, turns: seq<Turn>, start: nat, size: Size, i: nat)
    requires IsRun(ws, turns, start, size) && i < |ws|
    ensures ServedWorld(ws[i], ServedFrom(ws[0].db, start))
  {
    hide Serves, Turned, Open, Retained;
    if i == 0 {
      OpenServes(ws[0].db, ws[0].clock, start, ws[0].published, size);
    } else {
      RunStaysServed(ws, turns, start, size, i - 1);
      TurnedIsServed(ws[i - 1], ServedFrom(ws[0].db, start), turns[i - 1], size);
    }
  }

  /** No wake-up is lost: from any start, in every interleaving of commits, pruning, publications,
      keepalives, slow writes and failures, a pump that is idle and open has passed every cursor
      published. */
  lemma NoLostWakeUp(ws: seq<World>, turns: seq<Turn>, start: nat, size: Size, i: nat)
    requires IsRun(ws, turns, start, size) && i < |ws|
    ensures !ws[i].s.running && !ws[i].s.closed ==> ws[i].published <= ws[i].s.cursor <= |ws[i].db.history|
  {
    hide ServedWorld, IsRun;
    RunStaysServed(ws, turns, start, size, i);
    ServedMeansAwake(ws[i], ServedFrom(ws[0].db, start));
  }

  lemma ServedMeansAwake(w: World, from: nat)
    requires ServedWorld(w, from)
    ensures !w.s.running && !w.s.closed ==> w.published <= w.s.cursor <= |w.db.history|
  {
    hide Serves;
    ServedPumpIsAwake(w.db, w.clock, from, w.published, w.s);
  }

  /** The first `n` of the rows left at `s` have been written, and no more will be than the others. */
  predicate FinishedUpTo(s: State, later: State, n: nat) {
    && later.closed && n <= |RowsLeft(s)| && later.wire == s.wire + RowsLeft(s)[..n]
    && (RowsLeft(later) == RowsLeft(s)[n..] || RowsLeft(later) == [])
  }

  lemma FinishingGoesOn(s: State, later: State, after: State, n: nat)
    requires FinishedUpTo(s, later, n) && OnlyFinishes(later, after)
    ensures FinishedUpTo(s, after, n) || FinishedUpTo(s, after, n + 1)
  {
    hide RowsLeft;
    var rows := RowsLeft(s);
    if after.wire != later.wire {
      assert rows[..n + 1] == rows[..n] + [rows[n..][0]] && rows[n..][1..] == rows[n + 1..];
      assert s.wire + rows[..n] + [rows[n..][0]] == s.wire + rows[..n + 1];
    }
  }

  /** Once a stream is closed, only the rest of the replay that was under way is ever written: from
      then on the wire grows by a first part of those rows, and not at all if there are none. */
  lemma {:induction false} NothingElseIsWrittenOnceClosed(
    ws: seq<World>, turns: seq<Turn>, start: nat, size: Size, i: nat, j: nat) returns (n: nat)
    requires IsRun(ws, turns, start, size) && i <= j < |ws| && ws[i].s.closed
    ensures FinishedUpTo(ws[i].s, ws[j].s, n)
  {
    hide Step, React, RowsLeft, Opened, FinishedUpTo, OnlyFinishes;
    if i == j {
      n := 0;
      NothingFinishedYet(ws[i].s);
    } else {
      n := NothingElseIsWrittenOnceClosed(ws, turns, start, size, i, j - 1);
      var w, turn := ws[j - 1], turns[j - 1];
      assert ws[j] == Turned(w, turn, size) && w.db.nextCursor > 0;
      if turn.Stream? {
        StillClosed(ws[i].s, w.s, n);
        ClosedStreamsOnlyFinish(w.db, w.s, turn.event, size);
        FinishingGoesOn(ws[i].s, w.s, ws[j].s, n);
        if !FinishedUpTo(ws[i].s, ws[j].s, n) { n := n + 1; }
      }
    }
  }

  lemma NothingFinishedYet(s: State)
    requires s.closed
    ensures FinishedUpTo(s, s, 0)
  {
    hide RowsLeft;
    assert s.wire + RowsLeft(s)[..0] == s.wire;
  }

  lemma StillClosed(s: State, later: State, n: nat)
    requires FinishedUpTo(s, later, n)
    ensures later.closed
  {
  }

  // ----- what is committed but not yet shown -----

  /** The event makes the pump read the table. */
  predicate Replays(s: State, event: Event) {
    match event
    case Resumed => (s.wait.ReplayReturned? || s.wait.KeepaliveWritten?) && !s.closed && s.replayPending
    case Publish(_) => !s.closed && !s.running
    case KeepaliveDue => !s.closed && !s.running && s.replayPending
    case _ => false
  }

  /** An open stream ends up at the length the history had when the table was last read. */
  predicate ReadTo(s: State, read: nat) { !s.closed ==> Target(s) == read }

  lemma ReplayReadsAll(db: Db, clock: Millis, s: State, size: Size)
    requires Retained(db, clock)
    ensures db.nextCursor > 0 && Target(Replay(db, s, size)) == |db.history|
  {
    hide Retained, Earliest, ListAuditEvents, ReplayBytes;
    RetainedNumbers(db, clock);
    EarliestIsAfterThePruned(db, clock);
    if !OutsideBounds(db, s.cursor) {
      ListingHasNoGaps(db, clock, s.cursor, SSE_REPLAY_MAX_EVENTS);
      var rows := ListAuditEvents(db, s.cursor, SSE_REPLAY_MAX_EVENTS);
      if rows != [] { NumberedAt(db, clock, s.cursor + |rows| - 1); }
    }
  }

  lemma ReactReadsTo(db: Db, clock: Millis, from: nat, published: nat, s: State, event: Event, size: Size, read: nat)
    requires Serves(db, clock, from, published, s) && ReadTo(s, read) && db.nextCursor > 0
    ensures ReadTo(React(db, s, event, size), if Replays(s, event) then |db.history| else read)
  {
    hide InOrder, Retained, Replay, Position;
    ServedIsNumbered(db, clock, from, published, s);
    ReplayReadsAll(db, clock, s.(replayPending := false), size);
    ReplayReadsAll(db, clock, s.(replayPending := false, running := true), size);
    if s.wait.RowWritten? && s.wait.next < |s.wait.rows| && !s.closed {
      assert s.wait.rows[s.wait.next] == db.history[s.cursor];
      NumberedAt(db, clock, s.cursor);
    }
  }

  // ----- a pump that is not disturbed -----

  /** The stream after `n` of its waits have ended well. */
  function Pumped(db: Db, s: State, n: nat, size: Size): State
    requires db.nextCursor > 0
    decreases n
  {
    if n == 0 then s else Pumped(db, React(db, s, Resumed, size), n - 1, size)
  }

  /** How many waits of the replay under way are left. */
  function WaitsLeft(wait: Wait): nat {
    match wait
    case Nowhere => 0
    case ReplayReturned => 1
    case KeepaliveWritten => 1
    case ResetWritten(_) => 2
    case RowWritten(rows, next) => if next < |rows| then 1 + |rows| - next else 2
  }

  /** One wait is over: the replay is nearer to its end, or something that was pending is dealt with,
      or the pump ends. */
  lemma OneWaitLess(db: Db, s: State, size: Size)
    requires db.nextCursor > 0 && !s.wait.Nowhere?
    ensures var after := React(db, s, Resumed, size);
            && after.closed == s.closed
            && (s.wait.ReplayReturned? || s.wait.KeepaliveWritten? ==>
                  if s.closed || !(s.replayPending || s.keepalivePending) then
                    after == s.(running := false, wait := Nowhere)
                  else if s.replayPending then !after.replayPending && after.keepalivePending == s.keepalivePending
                  else !after.replayPending && !after.keepalivePending)
            && (!s.wait.ReplayReturned? && !s.wait.KeepaliveWritten? ==>
                  && after.replayPending == s.replayPending && after.keepalivePending == s.keepalivePending
                  && WaitsLeft(after.wait) < WaitsLeft(s.wait))
  {
    hide OutsideBounds, OverReplayLimit, ListAuditEvents;
  }

  /** A pump whose writes succeed comes to rest, and an open one has then passed everything that was in
      the table when it last read it: all of it, if a replay was pending. */
  lemma {:induction false} AnUndisturbedPumpComesToRest(
    db: Db, clock: Millis, from: nat, published: nat, s: State, size: Size, read: nat) returns (n: nat)
    requires Serves(db, clock, from, published, s) && ReadTo(s, read) && db.nextCursor > 0
    ensures var after := Pumped(db, s, n, size);
            && !after.running && after.closed == s.closed
            && (!s.closed ==> after.cursor == if s.running && s.replayPending then |db.history| else read)
    decreases s.replayPending, s.keepalivePending, WaitsLeft(s.wait)
  {
    hide Serves, React, WaitsLeft, Retained;
    ServedPumpIsAwake(db, clock, from, published, s);
    if s.wait.Nowhere? {
      n := 0;
    } else {
      var after := React(db, s, Resumed, size);
      OneWaitLess(db, s, size);
      ReactServes(db, clock, from, published, s, Resumed, size);
      ReactReadsTo(db, clock, from, published, s, Resumed, size, read);
      ServedPumpIsAwake(db, clock, from, published, after);
      NothingIsLess(s.wait);
      n := AnUndisturbedPumpComesToRest(db, clock, from, published, after, size,
                                        if Replays(s, Resumed) then |db.history| else read);
      n := n + 1;
    }
  }

  lemma NothingIsLess(wait: Wait)
    ensures !wait.Nowhere? ==> WaitsLeft(Nowhere) < WaitsLeft(wait)
  {
  }

  /** A write that fails closes the stream and ends its pump; nothing more is written. */
  lemma AFailedWriteCloses(db: Db, s: State, size: Size)
    requires db.nextCursor > 0
    ensures React(db, s, WriteFails, size) ==
            if s.wait.Nowhere? then s else s.(closed := true, running := false, wait := Nowhere)
  {
  }

  predicate ReplaysAt(ws: seq<World>, turns: seq<Turn>, k: nat)
    requires k < |turns| && |ws| == |turns| + 1
  {
    turns[k].Stream? && Replays(ws[k].s, turns[k].event)
  }

  predicate CommitsAt(ws: seq<World>, turns: seq<Turn>, k: nat)
    requires k < |turns| && |ws| == |turns| + 1
  {
    |ws[k].db.history| < |ws[k + 1].db.history|
  }

  /** Rows were committed in step `k`, and the table has not been read since, up to step `i`. */
  predicate UnreadSince(ws: seq<World>, turns: seq<Turn>, k: nat, i: nat)
    requires |ws| == |turns| + 1 && i < |ws|
  {
    k < i && CommitsAt(ws, turns, k) && forall m :: k < m < i ==> !ReplaysAt(ws, turns, m)
  }

  /** The length of the history when the pump last read the table. */
  function LastRead(ws: seq<World>, turns: seq<Turn>, i: nat): nat
    requires |ws| == |turns| + 1 && i < |ws|
  {
    if i == 0 then |ws[0].db.history|
    else if ReplaysAt(ws, turns, i - 1) then |ws[i - 1].db.history|
    else LastRead(ws, turns, i - 1)
  }

  lemma {:induction false} RunReadsTo(ws: seq<World>, turns: seq<Turn>, start: nat, size: Size, i: nat)
    requires IsRun(ws, turns, start, size) && i < |ws|
    ensures ReadTo(ws[i].s, LastRead(ws, turns, i))
  {
    hide Serves, React, Retained, Replay, ReadTo, Step, Replays;
    if i == 0 {
      OpenReadsTo(ws[0].db, ws[0].clock, start, size);
    } else {
      RunReadsTo(ws, turns, start, size, i - 1);
      RunStaysServed(ws, turns, start, size, i - 1);
      if turns[i - 1].Stream? {
        var w := ws[i - 1];
        ReactReadsTo(w.db, w.clock, ServedFrom(ws[0].db, start), w.published, w.s, turns[i - 1].event, size,
                     LastRead(ws, turns, i - 1));
      }
    }
  }

  lemma OpenReadsTo(db: Db, clock: Millis, start: nat, size: Size)
    requires Retained(db, clock)
    ensures db.nextCursor > 0 && ReadTo(Open(db, start, size), |db.history|)
  {
    hide Retained, Replay;
    ReplayReadsAll(db, clock, State(start, true, false, false, false, Nowhere, []), size);
  }

  lemma HistoryGrowsInRuns(ws: seq<World>, turns: seq<Turn>, start: nat, size: Size, i: nat)
    requires IsRun(ws, turns, start, size) && i < |turns|
    ensures ws[i].db.history <= ws[i + 1].db.history
    ensures turns[i].Stream? ==> ws[i + 1].db == ws[i].db
  {
    hide Step, React, Retained, Serves, Open;
    RunStaysServed(ws, turns, start, size, i);
    match turns[i]
    case Commit(now, op) =>
      ServedIsNumbered(ws[i].db, ws[i].clock, ServedFrom(ws[0].db, start), ws[i].published, ws[i].s);
      StepKeepsRetained(ws[i].db, ws[i].clock, now, op);
    case Stream(_) => {}
  }

  lemma {:induction false} UnreadExactlyWhenCommitted(ws: seq<World>, turns: seq<Turn>, start: nat, size: Size, i: nat)
    requires IsRun(ws, turns, start, size) && i < |ws|
    ensures LastRead(ws, turns, i) <= |ws[i].db.history|
    ensures LastRead(ws, turns, i) < |ws[i].db.history| <==> exists k: nat :: UnreadSince(ws, turns, k, i)
  {
    hide IsRun, Replays;
    if i > 0 {
      UnreadExactlyWhenCommitted(ws, turns, start, size, i - 1);
      SameLength(ws, turns, start, size);
      HistoryGrowsInRuns(ws, turns, start, size, i - 1);
      if LastRead(ws, turns, i) < |ws[i].db.history| {
        if CommitsAt(ws, turns, i - 1) {
          assert UnreadSince(ws, turns, i - 1, i);
        } else {
          var k: nat :| UnreadSince(ws, turns, k, i - 1);
          assert UnreadSince(ws, turns, k, i);
        }
      }
      if k: nat :| UnreadSince(ws, turns, k, i) {
        if k < i - 1 {
          assert !ReplaysAt(ws, turns, i - 1);
          assert UnreadSince(ws, turns, k, i - 1);
        }
      }
    }
  }

  lemma SameLength(ws: seq<World>, turns: seq<Turn>, start: nat, size: Size)
    requires IsRun(ws, turns, start, size)
    ensures |ws| == |turns| + 1
  {
  }

  /** An idle open pump is behind the history exactly if rows were committed since it last read the
      table; none of those rows has been published. */
  lemma BehindExactlyWhenUnread(ws: seq<World>, turns: seq<Turn>, start: nat, size: Size, i: nat)
    requires IsRun(ws, turns, start, size) && i < |ws| && !ws[i].s.running && !ws[i].s.closed
    ensures ws[i].s.cursor < |ws[i].db.history| <==> exists k: nat :: UnreadSince(ws, turns, k, i)
    ensures ws[i].published <= ws[i].s.cursor
    ensures ws[i].published == |ws[i].db.history| ==> ws[i].s.cursor == |ws[i].db.history|
  {
    hide IsRun, UnreadSince;
    SameLength(ws, turns, start, size);
    NoLostWakeUp(ws, turns, start, size, i);
    RunReadsTo(ws, turns, start, size, i);
    UnreadExactlyWhenCommitted(ws, turns, start, size, i);
    IdleIsAtTarget(ws, turns, start, size, i);
  }

  lemma IdleIsAtTarget(ws: seq<World>, turns: seq<Turn>, start: nat, size: Size, i: nat)
    requires IsRun(ws, turns, start, size) && i < |ws| && !ws[i].s.running && !ws[i].s.closed
    ensures Target(ws[i].s) == ws[i].s.cursor
  {
    hide Retained, InOrder, Open;
    RunStaysServed(ws, turns, start, size, i);
  }

  /** A row that is committed and not published can wait: the stream of an empty store comes to
      rest, a row is written, and the pump stays where it is. */
  lemma ACommittedRowCanWait(size: Size)
    ensures var w0 := World(EMPTY, 0, 0, Open(EMPTY, 0, size));
            var w1 := Turned(w0, Stream(Resumed), size);
            var w2 := Turned(w1, Commit(1, RecordAudit("integration.needs_refresh")), size);
            && IsRun([w0, w1, w2], [Stream(Resumed), Commit(1, RecordAudit("integration.needs_refresh"))], 0, size)
            && !w2.s.running && !w2.s.closed && w2.s.cursor == 0 && |w2.db.history| == 1
  {
    var w0 := World(EMPTY, 0, 0, Open(EMPTY, 0, size));
    assert w0.s.wait == ReplayReturned && w0.s.cursor == 0;
    assert Retained(EMPTY, 0);
  }

  // ----- when a reset is sent -----

  /** The bytes of a replay are those of its frames. */
  lemma {:induction false} BytesAddUp(left: seq<AuditRow>, right: seq<AuditRow>, row: AuditRow, size: Size)
    ensures ReplayBytes([row], size) == size(row)
    ensures ReplayBytes(left + right, size) == ReplayBytes(left, size) + ReplayBytes(right, size)
  {
    assert [row][..0] == [];
    if right == [] {
      assert left + right == left;
    } else {
      var init := right[..|right| - 1];
      BytesAddUp(left, init, row, size);
      assert (left + right)[..|left + right| - 1] == left + init;
    }
  }

  /** A replay resets exactly a reader outside the retained rows, or one whose backlog is over
      the limit in rows or in bytes. */
  lemma ResetExactlyWhen(db: Db, clock: Millis, s: State, size: Size)
    requires Retained(db, clock)
    ensures var backlog := if s.cursor <= |db.history| then |db.history| - s.cursor else 0;
            Replay(db, s, size).wait.ResetWritten? <==>
            (|| s.cursor + |db.audit| < |db.history| || s.cursor > |db.history|
             || backlog > 500 || ReplayBytes(db.history[s.cursor..], size) > 256 * 1024)
  {
    hide Retained, Earliest, ListAuditEvents, ReplayBytes;
    RetainedNumbers(db, clock);
    EarliestIsAfterThePruned(db, clock);
    if !OutsideBounds(db, s.cursor) {
      ListingHasNoGaps(db, clock, s.cursor, SSE_REPLAY_MAX_EVENTS);
      var rows := ListAuditEvents(db, s.cursor, SSE_REPLAY_MAX_EVENTS);
      if rows != [] { NumberedAt(db, clock, s.cursor + |rows| - 1); }
      assert db.history[s.cursor..] == db.history[s.cursor..|db.history|];
    }
  }
}
