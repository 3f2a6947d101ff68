/** The variables that streamEvents() closes over, and the functions that change them. Whatever
    happens to the stream is proved to be the step of EventStream that it stands for, to keep the
    stream's invariant, and to leave no wake-up unheeded. */
module EventPump {
  import opened JobLog
  import opened AuditRetention
  import opened EventStream

  class Subscription {
    const size: Size
    var cursor: nat
    var running: bool
    var replayPending: bool
    var keepalivePending: bool
    var closed: bool
    var wait: Wait
    var wire: seq<Frame>
    /** Where the reader is served from, and the highest cursor published so far. */
    ghost var from: nat
    ghost var published: nat

    function Vars(): State
      reads this
    {
      State(cursor, running, replayPending, keepalivePending, closed, wait, wire)
    }

    ghost predicate Good(db: Db, clock: Millis)
      reads this
    {
      Serves(db, clock, from, published, Vars())
    }

    predicate AtRest()
      reads this
    {
      !running && !closed
    }

    constructor (start: nat, ghost from: nat, ghost published: nat, size: Size)
      ensures Vars() == State(start, false, true, false, false, Nowhere, []) && this.size == size
      ensures this.from == from && this.published == published
    {
      this.size, this.from, this.published := size, from, published;
      cursor, running, replayPending, keepalivePending, closed := start, false, true, false, false;
      wait, wire := Nowhere, [];
    }

    method TotalBytes(rows: seq<AuditRow>) returns (total: nat)
      ensures total == ReplayBytes(rows, size)
    {
      total := 0;
      for i := 0 to |rows|
        invariant total == ReplayBytes(rows[..i], size)
      {
        assert rows[..i + 1][..i] == rows[..i];
        total := total + size(rows[i]);
      }
      assert rows[..|rows|] == rows;
    }

    method StartReset(latest: nat)
      modifies this`wait, this`wire
      ensures wait == ResetWritten(latest) && wire == old(wire) + [Reset(latest)]
    {
      wire := wire + [Reset(latest)];
      wait := ResetWritten(latest);
    }

    /** From a reader in step with its frames, a replay is sound and will reach the whole history. */
    method Replay(db: Db, ghost clock: Millis)
      requires Retained(db, clock) && running && !closed
      modifies this`wire, this`wait
      ensures Vars() == EventStream.Replay(db, old(Vars()), size) && Target(Vars()) == |db.history|
      ensures old(Ready(db, clock, from, Vars())) && published <= |db.history| ==>
                Sound(db, clock, from, published, Vars())
    {
      hide ListAuditEvents, Earliest, ReplayBytes, Retained, Sound, Ready, Target;
      RetainedNumbers(db, clock);
      ReplayReadsAll(db, clock, Vars(), size);
      if Ready(db, clock, from, Vars()) && published <= |db.history| {
        ReplayIsSound(db, clock, from, published, Vars(), size);
      }
      var latest := Latest(db);
      if cursor + 1 < Earliest(db) || cursor > latest {
        StartReset(latest);
        return;
      }
      var rows := ListAuditEvents(db, cursor, SSE_REPLAY_MAX_EVENTS);
      var replayBytes := TotalBytes(rows);
      var lastCursor := if rows == [] then cursor else rows[|rows| - 1].Cursor();
      if replayBytes > SSE_REPLAY_MAX_BYTES || (|rows| == SSE_REPLAY_MAX_EVENTS && lastCursor < latest) {
        StartReset(latest);
        return;
      }
      if rows == [] {
        wait := ReplayReturned;
      } else {
        wire := wire + [Coordination(rows[0])];
        wait := RowWritten(rows, 0);
      }
    }

    /** The pump's loop: it ends only with nothing left to do. */
    method Loop(db: Db, ghost clock: Millis)
      requires Retained(db, clock) && running
      modifies this`running, this`replayPending, this`keepalivePending, this`wait, this`wire
      ensures Vars() == EventStream.Loop(db, old(Vars()), size)
      ensures AtRest() ==> !replayPending && !keepalivePending
    {
      hide EventStream.Replay, Retained, Ready, Sound, Target;
      RetainedNumbers(db, clock);
      if !closed && (replayPending || keepalivePending) {
        if replayPending {
          replayPending := false;
          Replay(db, clock);
        } else {
          keepalivePending := false;
          wire := wire + [Keepalive];
          wait := KeepaliveWritten;
        }
      } else {
        running := false;
        wait := Nowhere;
      }
    }

    /** A pump that runs already is left alone; else it runs until it waits or has nothing to do. */
    method Pump(db: Db, ghost clock: Millis)
      requires Retained(db, clock)
      modifies this`running, this`replayPending, this`keepalivePending, this`wait, this`wire
      ensures Vars() == EventStream.Pump(db, old(Vars()), size)
      ensures AtRest() ==> !replayPending && !keepalivePending
    {
      hide EventStream.Loop, Retained;
      RetainedNumbers(db, clock);
      if running || closed { return; }
      running := true;
      Loop(db, clock);
    }

    method Resume(db: Db, ghost clock: Millis)
      requires Good(db, clock)
      modifies this
      ensures Vars() == EventStream.Resume(db, old(Vars()), size)
      ensures Good(db, clock) && from == old(from) && published == old(published)
      ensures AtRest() ==> published <= cursor <= |db.history| && !replayPending && !keepalivePending
    {
      hide Serves, EventStream.Loop;
      ServedIsNumbered(db, clock, from, published, Vars());
      ReactServes(db, clock, from, published, Vars(), Resumed, size);
      ServedPumpIsAwake(db, clock, from, published, React(db, Vars(), Resumed, size));
      ServedPumpIsAwake(db, clock, from, published, Vars());
      match wait
      case Nowhere => {}
      case ResetWritten(latest) =>
        cursor := latest;
        wait := ReplayReturned;
      case RowWritten(rows, next) =>
        if next < |rows| { cursor := rows[next].Cursor(); }
        if next + 1 < |rows| {
          wire := wire + [Coordination(rows[next + 1])];
          wait := RowWritten(rows, next + 1);
        } else {
          wait := ReplayReturned;
        }
      case _ => Loop(db, clock);
    }

    /** The callback given to the notifier; closing unsubscribes it. */
    method OnPublish(db: Db, latest: nat, ghost clock: Millis)
      requires Good(db, clock) && latest <= |db.history|
      modifies this
      ensures Vars() == React(db, old(Vars()), Publish(latest), size)
      ensures Good(db, clock) && from == old(from) && published == Published(old(published), Publish(latest))
      ensures AtRest() ==> published <= cursor <= |db.history| && !replayPending && !keepalivePending
    {
      hide Serves, EventStream.Loop, EventStream.Pump;
      ServedIsNumbered(db, clock, from, published, Vars());
      ReactServes(db, clock, from, published, Vars(), Publish(latest), size);
      ServedPumpIsAwake(db, clock, from, Published(published, Publish(latest)),
                        React(db, Vars(), Publish(latest), size));
      published := Published(published, Publish(latest));
      if !closed {
        replayPending := true;
        Pump(db, clock);
      }
    }

    method OnKeepalive(db: Db, ghost clock: Millis)
      requires Good(db, clock)
      modifies this
      ensures Vars() == React(db, old(Vars()), KeepaliveDue, size)
      ensures Good(db, clock) && from == old(from) && published == old(published)
      ensures AtRest() ==> published <= cursor <= |db.history| && !replayPending && !keepalivePending
    {
      hide Serves, EventStream.Loop, EventStream.Pump;
      ServedIsNumbered(db, clock, from, published, Vars());
      ReactServes(db, clock, from, published, Vars(), KeepaliveDue, size);
      ServedPumpIsAwake(db, clock, from, published, React(db, Vars(), KeepaliveDue, size));
      if !closed {
        keepalivePending := true;
        Pump(db, clock);
      }
    }

    method Cleanup(db: Db, ghost clock: Millis)
      requires Good(db, clock)
      modifies this
      ensures Vars() == React(db, old(Vars()), Event.Close, size)
      ensures Good(db, clock) && from == old(from) && published == old(published)
      ensures AtRest() ==> published <= cursor <= |db.history| && !replayPending && !keepalivePending
    {
      hide Serves, EventStream.Loop, EventStream.Pump;
      ServedIsNumbered(db, clock, from, published, Vars());
      ReactServes(db, clock, from, published, Vars(), Event.Close, size);
      ServedPumpIsAwake(db, clock, from, published, React(db, Vars(), Event.Close, size));
      closed := true;
    }

    /** The awaited write throws. */
    method Fail(db: Db, ghost clock: Millis)
      requires Good(db, clock)
      modifies this
      ensures Vars() == React(db, old(Vars()), WriteFails, size)
      ensures Good(db, clock) && from == old(from) && published == old(published)
      ensures AtRest() ==> published <= cursor <= |db.history| && !replayPending && !keepalivePending
    {
      hide Serves, EventStream.Loop, EventStream.Pump;
      ServedIsNumbered(db, clock, from, published, Vars());
      ReactServes(db, clock, from, published, Vars(), WriteFails, size);
      ServedPumpIsAwake(db, clock, from, published, React(db, Vars(), WriteFails, size));
      if wait != Nowhere {
        closed := true;
        running := false;
        wait := Nowhere;
      }
    }
  }

  /** streamEvents(): subscribe before the first replay. */
  method StreamEvents(db: Db, start: nat, ghost published: nat, size: Size, ghost clock: Millis)
    returns (subscription: Subscription)
    requires Retained(db, clock) && db.nextCursor > 0 && published <= |db.history|
    ensures fresh(subscription) && subscription.size == size && subscription.Vars() == Open(db, start, size)
    ensures subscription.published == published && subscription.Good(db, clock)
  {
    hide EventStream.Pump, Retained, Serves;
    OpenServes(db, clock, start, published, size);
    subscription := new Subscription(start, ServedFrom(db, start), published, size);
    subscription.Pump(db, clock);
  }
}
