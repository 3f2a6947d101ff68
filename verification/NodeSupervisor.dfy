/** NodeEventSupervisor.consume (apps/node/src/events.ts) over one connection, proved to be a
    sequence of the steps in NodeEvents. */
module NodeSupervisor {
  import opened Wrappers
  import opened JobLog
  import opened EventStream
  import opened NodeEvents

  /** How a connection ends at the frame it does not finish: before anything happens to it, with
      onEvent failing, or with onEvent returning and the save failing. */
  datatype Ending = BeforeFrame | HandlerFails | SaveFails

  function AfterSteps(n: Node, wire: seq<Frame>, steps: seq<NodeStep>): Node {
    if steps == [] then n else NodeAfter(AfterSteps(n, wire, steps[..|steps| - 1]), wire, steps[|steps| - 1])
  }

  lemma OneMoreStep(n: Node, wire: seq<Frame>, steps: seq<NodeStep>, step: NodeStep)
    ensures AfterSteps(n, wire, steps + [step]) == NodeAfter(AfterSteps(n, wire, steps), wire, step)
  {
    hide NodeAfter;
    assert (steps + [step])[..|steps|] == steps;
  }

  /** The cursor after reading the first `k` frames with a handler and saves that succeed. */
  function CursorAt(saved: nat, wire: seq<Frame>, k: nat): nat
    requires k <= |wire|
  {
    if k == 0 then saved
    else
      var cursor := CursorAt(saved, wire, k - 1);
      match wire[k - 1]
      case Keepalive => cursor
      case Reset(latest) => latest
      case Coordination(row) => if row.Cursor() > cursor then row.Cursor() else cursor
  }

  predicate IsNews(frame: Frame, cursor: nat) { frame.Coordination? && frame.row.Cursor() > cursor }

  /** Frame by frame: taken, and for a row that is new also handled and saved. */
  function ReadingSteps(saved: nat, wire: seq<Frame>, k: nat): seq<NodeStep>
    requires k <= |wire|
  {
    if k == 0 then [Connect]
    else
      ReadingSteps(saved, wire, k - 1) +
      if IsNews(wire[k - 1], CursorAt(saved, wire, k - 1)) then [Take, HandlerReturns, Save] else [Take]
  }

  /** The new rows among the first `k` frames. */
  function NewRows(saved: nat, wire: seq<Frame>, k: nat): seq<AuditRow>
    requires k <= |wire|
  {
    if k == 0 then []
    else
      NewRows(saved, wire, k - 1) +
      if IsNews(wire[k - 1], CursorAt(saved, wire, k - 1)) then [wire[k - 1].row] else []
  }

  /** How the connection ends: only at a row that is new can the handler or the save fail. */
  function EndingSteps(saved: nat, wire: seq<Frame>, until: nat, ending: Ending): seq<NodeStep>
    requires until <= |wire|
  {
    if until < |wire| && IsNews(wire[until], CursorAt(saved, wire, until)) then
      match ending
      case BeforeFrame => [Drop]
      case HandlerFails => [Take, Drop]
      case SaveFails => [Take, HandlerReturns, Drop]
    else [Drop]
  }

  class Supervisor {
    var saved: nat
    ghost var handled: seq<AuditRow>
    ghost var covered: set<nat>
    ghost var cut: set<nat>

    constructor ()
      ensures Between() == Node(0, None, [], {}, {})
    {
      saved, handled, covered, cut := 0, [], {}, {};
    }

    /** The Node while no connection is open. */
    ghost function Between(): Node
      reads this
    {
      Node(saved, None, handled, covered, cut)
    }

    ghost function During(c: Conn): Node
      reads this
    {
      Node(saved, Some(c), handled, covered, cut)
    }

    /** Read frames until the connection ends at frame `until`: every frame before it is taken and
        every new row among them is handled and saved. */
    method Consume(wire: seq<Frame>, until: nat, ending: Ending) returns (ghost steps: seq<NodeStep>)
      requires until <= |wire|
      modifies this
      ensures steps == ReadingSteps(old(saved), wire, until) + EndingSteps(old(saved), wire, until, ending)
      ensures Between() == AfterSteps(old(Between()), wire, steps)
      ensures saved == CursorAt(old(saved), wire, until)
      ensures var unsaved := ending == SaveFails && until < |wire| && IsNews(wire[until], saved);
              && handled == old(handled) + NewRows(old(saved), wire, until) +
              (if unsaved then [wire[until].row] else [])
              && cut == old(cut) + (if unsaved then {wire[until].row.Cursor()} else {})
    {
      hide NodeAfter, AfterSteps;
      var cursor := saved;
      ghost var before := Between();
      ghost var c := Conn(saved, saved, 0, NotCalled, []);
      steps := [Connect];
      Connected(before, wire);
      for i := 0 to until
        invariant During(c) == AfterSteps(before, wire, steps)
        invariant c.taken == i && c.cursor == cursor == CursorAt(before.saved, wire, i) && c.handler.NotCalled?
        invariant steps == ReadingSteps(before.saved, wire, i) && saved == cursor
        invariant handled == before.handled + NewRows(before.saved, wire, i) && cut == before.cut
      {
        ghost var at, done := During(c), steps;
        match wire[i]
        case Keepalive =>
          c := c.(taken := i + 1);
          steps := steps + [Take];
          FrameTaken(before, wire, done, at, During(c));
        case Reset(latest) =>
          covered := covered + Skipped(cursor, latest);
          cursor := latest;
          saved := cursor;
          c := c.(cursor := cursor, taken := i + 1);
          steps := steps + [Take];
          FrameTaken(before, wire, done, at, During(c));
        case Coordination(row) =>
          if row.Cursor() <= cursor {
            c := c.(taken := i + 1);
            steps := steps + [Take];
            FrameTaken(before, wire, done, at, During(c));
          } else {
            handled := handled + [row];
            cursor := row.Cursor();
            saved := cursor;
            c := c.(cursor := cursor, taken := i + 1, told := c.told + [cursor]);
            steps := steps + [Take, HandlerReturns, Save];
            RowTaken(before, wire, done, at, During(c));
          }
      }
      if until < |wire| && wire[until].Coordination? && wire[until].row.Cursor() > cursor && ending != BeforeFrame {
        ghost var row := wire[until].row;
        RowCut(before, wire, steps, During(c), row);
        if ending == SaveFails {
          handled := handled + [row];
          cut := cut + {row.Cursor()};
          steps := steps + [Take, HandlerReturns, Drop];
        } else {
          steps := steps + [Take, Drop];
        }
      } else {
        Dropped(before, wire, steps);
        steps := steps + [Drop];
      }
    }
  }

  /** Reading takes every frame, handles exactly the new rows in order, and saves the cursor it is at. */
  lemma {:induction false} ReadingHandlesTheNews(n: Node, wire: seq<Frame>, k: nat)
    requires n.conn.None? && k <= |wire|
    ensures var after := AfterSteps(n, wire, ReadingSteps(n.saved, wire, k));
            && after.conn.Some? && after.conn.value.taken == k && after.conn.value.handler.NotCalled?
            && after.conn.value.cursor == after.saved == CursorAt(n.saved, wire, k)
            && after.handled == n.handled + NewRows(n.saved, wire, k) && after.cut == n.cut
  {
    hide AfterSteps, NodeAfter;
    if k == 0 {
      Connected(n, wire);
    } else {
      ReadingHandlesTheNews(n, wire, k - 1);
      var steps := ReadingSteps(n.saved, wire, k - 1);
      var at := AfterSteps(n, wire, steps);
      if IsNews(wire[k - 1], CursorAt(n.saved, wire, k - 1)) {
        var row, c := wire[k - 1].row, at.conn.value;
        RowTaken(n, wire, steps, at, at.(saved := row.Cursor(), handled := at.handled + [row],
                                         conn := Some(c.(cursor := row.Cursor(), taken := k,
                                                         told := c.told + [row.Cursor()]))));
      } else {
        FrameTaken(n, wire, steps, at, TakeFrame(at, wire[k - 1]));
      }
    }
  }

  lemma Connected(n: Node, wire: seq<Frame>)
    requires n.conn.None?
    ensures AfterSteps(n, wire, [Connect]) == n.(conn := Some(Conn(n.saved, n.saved, 0, NotCalled, [])))
  {
    OneMoreStep(n, wire, [], Connect);
    assert [] + [Connect] == [Connect];
  }

  lemma FrameTaken(n: Node, wire: seq<Frame>, steps: seq<NodeStep>, at: Node, after: Node)
    requires at == AfterSteps(n, wire, steps) && at.conn.Some? && at.conn.value.handler.NotCalled?
    requires at.conn.value.taken < |wire| && after == TakeFrame(at, wire[at.conn.value.taken])
    ensures after == AfterSteps(n, wire, steps + [Take])
  {
    hide AfterSteps;
    OneMoreStep(n, wire, steps, Take);
  }

  lemma RowTaken(n: Node, wire: seq<Frame>, steps: seq<NodeStep>, at: Node, after: Node)
    requires at == AfterSteps(n, wire, steps) && at.conn.Some? && at.conn.value.handler.NotCalled?
    requires at.conn.value.taken < |wire| && wire[at.conn.value.taken].Coordination?
    requires var row, c := wire[at.conn.value.taken].row, at.conn.value;
             && c.cursor < row.Cursor()
             && after == at.(
                           saved := row.Cursor(), handled := at.handled + [row],
                           conn := Some(c.(cursor := row.Cursor(), taken := c.taken + 1,
                                           told := c.told + [row.Cursor()])))
    ensures after == AfterSteps(n, wire, steps + [Take, HandlerReturns, Save])
  {
    hide AfterSteps;
    assert steps + [Take, HandlerReturns, Save] == steps + [Take] + [HandlerReturns] + [Save];
    OneMoreStep(n, wire, steps, Take);
    OneMoreStep(n, wire, steps + [Take], HandlerReturns);
    OneMoreStep(n, wire, steps + [Take] + [HandlerReturns], Save);
  }

  lemma RowCut(n: Node, wire: seq<Frame>, steps: seq<NodeStep>, at: Node, row: AuditRow)
    requires at == AfterSteps(n, wire, steps) && at.conn.Some? && at.conn.value.handler.NotCalled?
    requires at.conn.value.taken < |wire| && wire[at.conn.value.taken] == Coordination(row)
    requires at.conn.value.cursor < row.Cursor()
    ensures at.(conn := None) == AfterSteps(n, wire, steps + [Take, Drop])
    ensures at.(conn := None, handled := at.handled + [row], cut := at.cut + {row.Cursor()}) ==
            AfterSteps(n, wire, steps + [Take, HandlerReturns, Drop])
  {
    hide AfterSteps;
    assert steps + [Take, Drop] == steps + [Take] + [Drop];
    assert steps + [Take, HandlerReturns, Drop] == steps + [Take] + [HandlerReturns] + [Drop];
    OneMoreStep(n, wire, steps, Take);
    OneMoreStep(n, wire, steps + [Take], Drop);
    OneMoreStep(n, wire, steps + [Take], HandlerReturns);
    OneMoreStep(n, wire, steps + [Take] + [HandlerReturns], Drop);
  }

  lemma Dropped(n: Node, wire: seq<Frame>, steps: seq<NodeStep>)
    requires var at := AfterSteps(n, wire, steps); at.conn.Some? && at.conn.value.handler.NotCalled?
    ensures AfterSteps(n, wire, steps + [Drop]) == AfterSteps(n, wire, steps).(conn := None)
  {
    hide AfterSteps;
    OneMoreStep(n, wire, steps, Drop);
  }
}
