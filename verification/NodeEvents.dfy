/** The Node's end of the stream (apps/node/src/events.ts), and what holds from the Hub's
    table to the Node's handler across reconnects and crashes. */
module NodeEvents {
  import opened Wrappers
  import opened JobLog
  import opened AuditRetention
  import opened EventStream

  datatype Handler = NotCalled | Calling(row: AuditRow) | Returned(row: AuditRow)

  /** One connection: where it started, the local cursor, how many frames are dealt with, the
      onEvent call under way, and the cursors onEvent has returned from. */
  datatype Conn = Conn(start: nat, cursor: nat, taken: nat, handler: Handler, told: seq<nat>)

  /** `saved` is the cursor store, and survives everything. The last three fields record, over
      all connections, the rows onEvent returned from, the cursors a saved reset stands for, and
      the rows whose connection broke after onEvent returned and before the save. */
  datatype Node = Node(saved: nat, conn: Option<Conn>, handled: seq<AuditRow>, covered: set<nat>, cut: set<nat>)

  datatype NodeStep = Connect | Take | HandlerReturns | Save | Drop

  predicate Between(low: nat, cursor: nat, high: nat) { low < cursor <= high }

  /** The cursors a reset jumps over. */
  function Skipped(low: nat, high: nat): set<nat> { set cursor: nat | cursor <= high && Between(low, cursor, high) }

  /** They are those after the one and up to the other. */
  lemma SkippedAreBetween(low: nat, high: nat, cursor: nat)
    ensures cursor in Skipped(low, high) <==> low < cursor <= high
  {
  }

  function Skip(n: Node): Node
    requires n.conn.Some?
  {
    n.(conn := Some(n.conn.value.(taken := n.conn.value.taken + 1)))
  }

  /** Deal with the next frame, up to the call of onEvent if there is one. */
  function TakeFrame(n: Node, frame: Frame): Node
    requires n.conn.Some?
  {
    var c := n.conn.value;
    match frame
    case Keepalive => Skip(n)
    case Reset(latest) =>
      n.(saved := latest, conn := Some(c.(cursor := latest, taken := c.taken + 1)),
         covered := n.covered + Skipped(c.cursor, latest))
    case Coordination(row) =>
      if row.Cursor() <= c.cursor then Skip(n) else n.(conn := Some(c.(handler := Calling(row))))
  }

  /** A step that does not apply changes nothing. */
  function NodeAfter(n: Node, wire: seq<Frame>, step: NodeStep): Node {
    if n.conn.None? then if step.Connect? then n.(conn := Some(Conn(n.saved, n.saved, 0, NotCalled, []))) else n
    else
      var c := n.conn.value;
      match step
      case Connect => n
      case Take => if c.handler.NotCalled? && c.taken < |wire| then TakeFrame(n, wire[c.taken]) else n
      case HandlerReturns =>
        if c.handler.Calling? then
          n.(conn := Some(c.(handler := Returned(c.handler.row), told := c.told + [c.handler.row.Cursor()])),
             handled := n.handled + [c.handler.row])
        else n
      case Save =>
        if c.handler.Returned? then
          var cursor := c.handler.row.Cursor();
          n.(saved := cursor, conn := Some(c.(cursor := cursor, taken := c.taken + 1, handler := NotCalled)))
        else n
      case Drop => n.(conn := None, cut := if c.handler.Returned? then n.cut + {c.handler.row.Cursor()} else n.cut)
  }

  // ----- Hub and Node together -----

  datatype System = System(world: World, start: nat, node: Node)

  datatype Move = AtHub(turn: Turn) | AtNode(step: NodeStep)

  /** Connecting opens a new stream at the saved cursor; the old one has no reader left. */
  ghost function Moved(sys: System, move: Move, size: Size): System
    requires sys.world.db.nextCursor > 0
  {
    match move
    case AtHub(turn) => sys.(world := Turned(sys.world, turn, size))
    case AtNode(step) =>
      var after := sys.(node := NodeAfter(sys.node, sys.world.s.wire, step));
      if step.Connect? && sys.node.conn.None?
      then after.(start := sys.node.saved, world := sys.world.(s := Open(sys.world.db, sys.node.saved, size)))
      else after
  }

  ghost predicate Reached(history: seq<AuditRow>, n: Node) {
    && n.saved <= |history|
    && forall i :: 0 <= i < n.saved ==> history[i] in n.handled || i + 1 in n.covered
  }

  /** Every row onEvent has returned from is saved, or was cut off, or is about to be saved. */
  ghost predicate Accounted(n: Node) {
    forall row <- n.handled ::
      row.Cursor() <= n.saved || row.Cursor() in n.cut || (n.conn.Some? && n.conn.value.handler == Returned(row))
  }

  predicate Increasing(cursors: seq<nat>) {
    forall i, j :: 0 <= i < j < |cursors| ==> cursors[i] < cursors[j]
  }

  ghost predicate InStep(start: nat, wire: seq<Frame>, n: Node, c: Conn) {
    && c.start == start && c.taken <= |wire|
    && c.cursor == n.saved == Position(start, wire[..c.taken])
    && Increasing(c.told)
    && (forall k :: 0 <= k < |c.told| ==>
          c.told[k] <= c.cursor || (c.handler.Returned? && c.told[k] == c.handler.row.Cursor()))
    && (!c.handler.NotCalled? ==>
          c.taken < |wire| && wire[c.taken] == Coordination(c.handler.row) && c.cursor < c.handler.row.Cursor())
    && (c.handler.Calling? ==> forall k :: 0 <= k < |c.told| ==> c.told[k] <= c.cursor)
    && (c.handler.Returned? ==> c.handler.row in n.handled)
  }

  ghost predicate NodeSound(history: seq<AuditRow>, start: nat, wire: seq<Frame>, n: Node) {
    && Reached(history, n) && Accounted(n)
    && (n.conn.Some? ==> InStep(start, wire, n, n.conn.value))
  }

  ghost predicate SystemSound(sys: System) {
    SoundWorld(sys.world, sys.start) && NodeSound(sys.world.db.history, sys.start, sys.world.s.wire, sys.node)
  }

  lemma FrameContinues(start: nat, wire: seq<Frame>, history: seq<AuditRow>, k: nat)
    requires InOrder(start, wire, history) && k < |wire|
    ensures Continues(Position(start, wire[..k]), wire[k], history)
    ensures Position(start, wire[..k + 1]) ==
            match wire[k] case Coordination(row) => row.Cursor() case Reset(latest) => latest
                          case Keepalive => Position(start, wire[..k])
  {
    assert wire[..k + 1][..k] == wire[..k];
  }

  lemma NodeStepIsSound(db: Db, clock: Millis, start: nat, wire: seq<Frame>, n: Node, step: NodeStep)
    requires Retained(db, clock) && InOrder(start, wire, db.history)
    requires NodeSound(db.history, start, wire, n) && (step.Connect? ==> n.conn.Some?)
    ensures NodeSound(db.history, start, wire, NodeAfter(n, wire, step))
  {
    hide InOrder, Retained, Position, TakeFrame;
    if n.conn.Some? {
      var c := n.conn.value;
      if c.taken < |wire| {
        FrameContinues(start, wire, db.history, c.taken);
        if wire[c.taken].Coordination? { NumberedAt(db, clock, n.saved); }
        if c.handler.NotCalled? { TakeIsSound(db.history, start, wire, n); }
      }
    }
  }

  lemma TakeIsSound(history: seq<AuditRow>, start: nat, wire: seq<Frame>, n: Node)
    requires NodeSound(history, start, wire, n) && n.conn.Some?
    requires n.conn.value.handler.NotCalled? && n.conn.value.taken < |wire|
    requires Continues(n.saved, wire[n.conn.value.taken], history)
    requires wire[n.conn.value.taken].Coordination? ==> wire[n.conn.value.taken].row.Cursor() == n.saved + 1
    requires Position(start, wire[..n.conn.value.taken + 1]) ==
             match wire[n.conn.value.taken]
             case Coordination(row) => row.Cursor()
             case Reset(latest) => latest
             case Keepalive => n.saved
    ensures NodeSound(history, start, wire, TakeFrame(n, wire[n.conn.value.taken]))
  {
    hide Position;
  }

  lemma ConnectIsSound(history: seq<AuditRow>, n: Node, wire: seq<Frame>)
    requires Reached(history, n) && Accounted(n) && n.conn.None?
    ensures NodeSound(history, n.saved, wire, NodeAfter(n, wire, Connect))
  {
  }

  /** The Node's view of a stream is unchanged when the stream writes more. */
  lemma LongerWire(history: seq<AuditRow>, more: seq<AuditRow>, start: nat, wire: seq<Frame>, longer: seq<Frame>,
                   n: Node)
    requires NodeSound(history, start, wire, n) && history <= more && wire <= longer
    ensures NodeSound(more, start, longer, n)
  {
    if n.conn.Some? { assert longer[..n.conn.value.taken] == wire[..n.conn.value.taken]; }
  }

  lemma StreamsOnlyWrite(db: Db, s: State, event: Event, size: Size)
    requires db.nextCursor > 0
    ensures s.wire <= React(db, s, event, size).wire
  {
    hide OutsideBounds, OverReplayLimit, ListAuditEvents;
  }

  lemma HistoryOnlyGrows(w: World, turn: Turn, start: nat, size: Size)
    requires SoundWorld(w, start) && w.db.nextCursor > 0 && Possible(w, turn)
    ensures w.db.history <= Turned(w, turn, size).db.history && w.s.wire <= Turned(w, turn, size).s.wire
  {
    hide Sound, Step, React;
    match turn
    case Commit(now, op) =>
      SoundIsRetained(w, start);
      StepKeepsRetained(w.db, w.clock, now, op);
    case Stream(event) => StreamsOnlyWrite(w.db, w.s, event, size);
  }

  predicate PossibleMove(sys: System, move: Move) {
    move.AtHub? ==> Possible(sys.world, move.turn)
  }

  lemma SoundParts(w: World, start: nat)
    requires SoundWorld(w, start)
    ensures Retained(w.db, w.clock) && InOrder(start, w.s.wire, w.db.history) && w.published <= |w.db.history|
    ensures w.db.nextCursor == |w.db.history| + 1
  {
  }

  lemma MovedIsSound(sys: System, move: Move, size: Size)
    requires SystemSound(sys) && sys.world.db.nextCursor > 0 && PossibleMove(sys, move)
    ensures SystemSound(Moved(sys, move, size))
  {
    hide SoundWorld, Turned, Retained, InOrder, Reached, Accounted, InStep, Possible, Open, Sound;
    SoundParts(sys.world, sys.start);
    match move {
      case AtHub(turn) =>
        TurnedIsSound(sys.world, sys.start, turn, size);
        HistoryOnlyGrows(sys.world, turn, sys.start, size);
        var after := Turned(sys.world, turn, size);
        LongerWire(sys.world.db.history, after.db.history, sys.start, sys.world.s.wire, after.s.wire, sys.node);
      case AtNode(step) =>
        if step.Connect? && sys.node.conn.None? {
          ReconnectIsSound(sys, size);
        } else {
          NodeStepIsSound(sys.world.db, sys.world.clock, sys.start, sys.world.s.wire, sys.node, step);
        }
    }
  }

  lemma ReconnectIsSound(sys: System, size: Size)
    requires SystemSound(sys) && sys.world.db.nextCursor > 0 && sys.node.conn.None?
    ensures SystemSound(Moved(sys, AtNode(Connect), size))
  {
    hide Retained, InOrder, Accounted, InStep, Open;
    var saved := sys.node.saved;
    OpenIsSound(sys.world.db, sys.world.clock, saved, sys.world.published, size);
    ConnectIsSound(sys.world.db.history, sys.node, Open(sys.world.db, saved, size).wire);
  }

  // ----- whole runs -----

  ghost predicate IsSystemRun(systems: seq<System>, moves: seq<Move>, size: Size) {
    && |systems| == |moves| + 1
    && (forall i :: 0 <= i < |moves| ==>
          && systems[i].world.db.nextCursor > 0 && PossibleMove(systems[i], moves[i])
          && systems[i + 1] == Moved(systems[i], moves[i], size))
  }

  /** A Node that has never connected, at a Hub with any retained table. */
  ghost predicate Fresh(sys: System) {
    SoundWorld(sys.world, sys.start) && sys.node == Node(0, None, [], {}, {})
  }

  /** For one, an empty store and the stream of a first connection. */
  lemma EmptyStoreIsFresh(size: Size)
    ensures Fresh(System(World(EMPTY, 0, 0, Open(EMPTY, 0, size)), 0, Node(0, None, [], {}, {})))
  {
    hide Open, Sound;
    OpenIsSound(EMPTY, 0, 0, 0, size);
  }

  lemma FreshIsSound(sys: System)
    requires Fresh(sys)
    ensures SystemSound(sys)
  {
    hide SoundWorld;
  }

  lemma {:induction false} SystemRunStaysSound(systems: seq<System>, moves: seq<Move>, size: Size, i: nat)
    requires IsSystemRun(systems, moves, size) && Fresh(systems[0]) && i < |systems|
    ensures SystemSound(systems[i])
  {
    hide SystemSound, Moved, Fresh, PossibleMove;
    if i == 0 {
      FreshIsSound(systems[0]);
    } else {
      SystemRunStaysSound(systems, moves, size, i - 1);
      MovedIsSound(systems[i - 1], moves[i - 1], size);
    }
  }

  /** Across any number of reconnects and crashes, every audit row at or below the saved cursor
      was handled to the end, or a reset stands for it; and the saved cursor is never past the
      history, so that a Hub with one history never answers that the cursor is ahead. */
  lemma EverythingSavedWasHandled(systems: seq<System>, moves: seq<Move>, size: Size, i: nat, row: nat)
    requires IsSystemRun(systems, moves, size) && Fresh(systems[0]) && i < |systems|
    ensures var sys := systems[i];
            && sys.node.saved <= |sys.world.db.history|
            && (row < sys.node.saved ==> sys.world.db.history[row] in sys.node.handled || row + 1 in sys.node.covered)
  {
    hide SoundWorld, InStep, Accounted;
    SystemRunStaysSound(systems, moves, size, i);
  }

  /** Within a connection the handled cursors increase. */
  lemma HandledInOrder(systems: seq<System>, moves: seq<Move>, size: Size, i: nat)
    requires IsSystemRun(systems, moves, size) && Fresh(systems[0]) && i < |systems|
    ensures systems[i].node.conn.Some? ==> Increasing(systems[i].node.conn.value.told)
  {
    hide SoundWorld;
    SystemRunStaysSound(systems, moves, size, i);
  }

  /** A row is handed to onEvent a second time only if its connection once broke after onEvent
      returned and before the cursor was saved. */
  lemma RepeatsOnlyAfterACut(systems: seq<System>, moves: seq<Move>, size: Size, i: nat)
    requires IsSystemRun(systems, moves, size) && Fresh(systems[0]) && i < |systems|
    ensures var n := systems[i].node;
            n.conn.Some? && n.conn.value.handler.Calling? && n.conn.value.handler.row in n.handled ==>
            n.conn.value.handler.row.Cursor() in n.cut
  {
    hide SoundWorld, Increasing;
    SystemRunStaysSound(systems, moves, size, i);
  }

  /** When the pump rests and the Node has dealt with every frame, the saved cursor has passed
      every published one. */
  lemma RestMeansCaughtUp(systems: seq<System>, moves: seq<Move>, size: Size, i: nat)
    requires IsSystemRun(systems, moves, size) && Fresh(systems[0]) && i < |systems|
    requires var sys := systems[i];
             && !sys.world.s.running && !sys.world.s.closed && sys.node.conn.Some?
             && sys.node.conn.value.taken == |sys.world.s.wire|
    ensures systems[i].node.saved >= systems[i].world.published
  {
    hide Increasing, Retained, InOrder;
    SystemRunStaysSound(systems, moves, size, i);
    var sys := systems[i];
    assert sys.world.s.wire[..|sys.world.s.wire|] == sys.world.s.wire;
  }
}
