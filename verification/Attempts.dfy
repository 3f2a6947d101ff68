/** The Hub's fixed-window limiter for sign-in and enrollment attempts (apps/hub/src/app.ts):
    a map in insertion order from client keys to windows. */
module Attempts {
  import opened Wrappers

  type Millis = int

  const ATTEMPT_WINDOW_MS: Millis := 60_000

  datatype Window = Window(startedAt: Millis, attempts: nat)

  datatype Entry = Entry(key: string, window: Window)

  predicate Expired(window: Window, now: Millis) {
    now < window.startedAt || now - window.startedAt >= ATTEMPT_WINDOW_MS
  }

  // ----- the ordered map -----

  ghost predicate Distinct(entries: seq<Entry>) {
    forall i, j :: 0 <= i < j < |entries| ==> entries[i].key != entries[j].key
  }

  function Get(entries: seq<Entry>, key: string): Option<Window> {
    if entries == [] then None
    else if entries[0].key == key then Some(entries[0].window) else Get(entries[1..], key)
  }

  function Delete(entries: seq<Entry>, key: string): seq<Entry> {
    if entries == [] then []
    else if entries[0].key == key then Delete(entries[1..], key) else [entries[0]] + Delete(entries[1..], key)
  }

  /** Deleting the expired windows. */
  function Sweep(entries: seq<Entry>, now: Millis): seq<Entry> {
    if entries == [] then []
    else if Expired(entries[0].window, now) then Sweep(entries[1..], now) else [entries[0]] + Sweep(entries[1..], now)
  }

  /** Deleting the oldest until there is room for one more. */
  function Evict(entries: seq<Entry>, capacity: nat): seq<Entry>
    requires capacity > 0
  {
    if |entries| < capacity then entries else entries[|entries| + 1 - capacity..]
  }

  function Evicted(entries: seq<Entry>, capacity: nat): seq<Entry>
    requires capacity > 0
  {
    if |entries| < capacity then [] else entries[..|entries| + 1 - capacity]
  }

  // ----- one attempt -----

  function Current(entries: seq<Entry>, key: string, now: Millis): seq<Entry> {
    var current := Get(entries, key);
    if current.Some? && Expired(current.value, now) then Delete(entries, key) else entries
  }

  function Swept(entries: seq<Entry>, key: string, now: Millis, capacity: nat): seq<Entry> {
    var rest := Current(entries, key, now);
    if |rest| >= capacity then Sweep(rest, now) else rest
  }

  datatype Outcome = Outcome(entries: seq<Entry>, permitted: bool, forgotten: seq<Entry>)

  function Attempt(entries: seq<Entry>, key: string, maximum: nat, now: Millis, capacity: nat): Outcome
    requires capacity > 0
  {
    var rest := Current(entries, key, now);
    var active := Get(rest, key);
    if active.Some? then
      var permitted := active.value.attempts < maximum;
      var window := if permitted then active.value.(attempts := active.value.attempts + 1) else active.value;
      Outcome(Delete(rest, key) + [Entry(key, window)], permitted, [])
    else
      var swept := Swept(entries, key, now, capacity);
      Outcome(Evict(swept, capacity) + [Entry(key, Window(now, 1))], true, Evicted(swept, capacity))
  }

  // ----- facts about the ordered map -----

  lemma {:induction false} DeleteIsExact(entries: seq<Entry>, key: string, other: string)
    requires Distinct(entries)
    ensures Get(Delete(entries, key), other) == if other == key then None else Get(entries, other)
    ensures Distinct(Delete(entries, key)) && |Delete(entries, key)| <= |entries|
    ensures Get(entries, key).Some? ==> |Delete(entries, key)| < |entries|
    ensures forall entry <- Delete(entries, key) :: entry in entries && entry.key != key
  {
    if entries != [] {
      DeleteIsExact(entries[1..], key, other);
      assert forall entry <- entries[1..] :: entry in entries;
    }
  }

  lemma {:induction false} SweepIsExact(entries: seq<Entry>, now: Millis, key: string)
    requires Distinct(entries)
    ensures var kept := Get(entries, key);
            Get(Sweep(entries, now), key) == if kept.Some? && Expired(kept.value, now) then None else kept
    ensures Distinct(Sweep(entries, now)) && |Sweep(entries, now)| <= |entries|
    ensures forall entry <- Sweep(entries, now) :: entry in entries
  {
    if entries != [] {
      SweepIsExact(entries[1..], now, key);
      NotThere(entries[1..], entries[0].key);
      assert forall entry <- entries[1..] :: entry in entries;
    }
  }

  lemma {:induction false} NotThere(entries: seq<Entry>, key: string)
    requires forall entry <- entries :: entry.key != key
    ensures Get(entries, key).None?
  {
    if entries != [] { NotThere(entries[1..], key); }
  }

  lemma {:induction false} GetSplits(left: seq<Entry>, right: seq<Entry>, key: string)
    ensures Get(left + right, key) == if Get(left, key).Some? then Get(left, key) else Get(right, key)
  {
    if left == [] {
      assert left + right == right;
    } else {
      GetSplits(left[1..], right, key);
      assert (left + right)[1..] == left[1..] + right;
    }
  }

  lemma {:induction false} GetIsThere(entries: seq<Entry>, key: string)
    ensures Get(entries, key).Some? <==> exists i :: 0 <= i < |entries| && entries[i].key == key
  {
    if entries != [] {
      GetIsThere(entries[1..], key);
      if Get(entries[1..], key).Some? {
        var i :| 0 <= i < |entries[1..]| && entries[1..][i].key == key;
        assert entries[i + 1].key == key;
      }
      if i :| 0 < i < |entries| && entries[i].key == key {
        assert entries[1..][i - 1].key == key;
      }
    }
  }

  lemma SuffixIsDistinct(entries: seq<Entry>, n: nat)
    requires Distinct(entries) && n <= |entries|
    ensures Distinct(entries[n..])
  {
  }

  lemma AppendNew(entries: seq<Entry>, entry: Entry, other: string)
    requires Distinct(entries) && Get(entries, entry.key).None?
    ensures Distinct(entries + [entry])
    ensures Get(entries + [entry], other) == if other == entry.key then Some(entry.window) else Get(entries, other)
  {
    GetIsThere(entries, entry.key);
    GetSplits(entries, [entry], other);
  }

  // ----- what one attempt does to a window -----

  /** Within a minute of its start. */
  predicate Lasts(window: Window, now: Millis) { window.startedAt <= now < window.startedAt + 60_000 }

  /** The window that counts for `key` at this time. */
  function Live(entries: seq<Entry>, key: string, now: Millis): Option<Window> {
    var window := Get(entries, key);
    if window.Some? && !Lasts(window.value, now) then None else window
  }

  ghost predicate Dropped(forgotten: seq<Entry>, key: string) {
    exists i :: 0 <= i < |forgotten| && forgotten[i].key == key
  }

  lemma CurrentIsLive(entries: seq<Entry>, key: string, now: Millis, other: string)
    requires Distinct(entries)
    ensures var rest := Current(entries, key, now);
            && Distinct(rest) && |rest| <= |entries|
            && Get(rest, other) == if other == key then Live(entries, key, now) else Get(entries, other)
  {
    DeleteIsExact(entries, key, other);
    DeleteIsExact(entries, key, key);
  }

  lemma SweptKeepsUnexpired(entries: seq<Entry>, key: string, now: Millis, capacity: nat, other: string)
    requires Distinct(entries) && |entries| <= capacity
    ensures var found := Get(Swept(entries, key, now, capacity), other);
            || found == (if other == key then Live(entries, key, now) else Get(entries, other))
            || (found.None? && Get(entries, other).Some? && Expired(Get(entries, other).value, now))
    ensures Distinct(Swept(entries, key, now, capacity)) && |Swept(entries, key, now, capacity)| <= capacity
    ensures other == key ==> Get(Swept(entries, key, now, capacity), key) == Live(entries, key, now)
  {
    hide Get, Sweep, Distinct;
    CurrentIsLive(entries, key, now, other);
    SweepIsExact(Current(entries, key, now), now, other);
  }

  lemma EvictedIsDropped(entries: seq<Entry>, capacity: nat, other: string)
    requires Distinct(entries) && capacity > 0 && |entries| <= capacity
    ensures Distinct(Evict(entries, capacity)) && |Evict(entries, capacity)| < capacity
    ensures Dropped(Evicted(entries, capacity), other) ==> Get(Evict(entries, capacity), other).None?
    ensures !Dropped(Evicted(entries, capacity), other) ==> Get(Evict(entries, capacity), other) == Get(entries, other)
  {
    hide Get;
    if |entries| == capacity {
      SuffixIsDistinct(entries, 1);
      assert entries == entries[..1] + entries[1..];
      GetSplits(entries[..1], entries[1..], other);
      GetIsThere(entries[..1], other);
      GetIsThere(entries[1..], other);
    }
  }

  /** A window of another key is untouched, or it had expired, or it is reported forgotten; the
      key's own live window counts the attempt if it is below the maximum, and else a new one
      starts; and the map keeps to its capacity. */
  lemma AttemptMeans(entries: seq<Entry>, key: string, maximum: nat, now: Millis, capacity: nat, other: string)
    requires Distinct(entries) && |entries| <= capacity && capacity > 0
    ensures var after, live := Attempt(entries, key, maximum, now, capacity), Live(entries, key, now);
            && Distinct(after.entries) && |after.entries| <= capacity
            && (after.permitted <==> live.None? || live.value.attempts < maximum)
            && (other == key ==>
                  Get(after.entries, key) ==
                  if live.None? then Some(Window(now, 1))
                  else if after.permitted then Some(live.value.(attempts := live.value.attempts + 1)) else live)
            && (other != key && !Dropped(after.forgotten, other) && Get(entries, other).Some?
                && Lasts(Get(entries, other).value, now) ==>
                  Get(after.entries, other) == Get(entries, other))
            && (other != key && Get(after.entries, other).Some? ==> Get(after.entries, other) == Get(entries, other))
  {
    hide Get, Delete, Distinct, Current, Swept, Evict, Evicted, Dropped;
    var rest := Current(entries, key, now);
    CurrentIsLive(entries, key, now, other);
    CurrentIsLive(entries, key, now, key);
    if Get(rest, key).Some? {
      DeleteIsExact(rest, key, other);
      DeleteIsExact(rest, key, key);
      AppendNew(Delete(rest, key), Attempt(entries, key, maximum, now, capacity).entries[|Delete(rest, key)|], other);
    } else {
      var swept := Swept(entries, key, now, capacity);
      SweptKeepsUnexpired(entries, key, now, capacity, other);
      SweptKeepsUnexpired(entries, key, now, capacity, key);
      EvictedIsDropped(swept, capacity, other);
      EvictedIsDropped(swept, capacity, key);
      AppendNew(Evict(swept, capacity), Entry(key, Window(now, 1)), other);
    }
  }

  lemma AttemptKeepsRoom(entries: seq<Entry>, key: string, maximum: nat, now: Millis, capacity: nat)
    requires Distinct(entries) && |entries| <= capacity && capacity > 0
    ensures var after := Attempt(entries, key, maximum, now, capacity).entries;
            Distinct(after) && |after| <= capacity
  {
    hide Attempt, Distinct, Get, Dropped;
    AttemptMeans(entries, key, maximum, now, capacity, key);
  }

  predicate AllLive(entries: seq<Entry>, now: Millis) {
    forall i :: 0 <= i < |entries| ==> Lasts(entries[i].window, now)
  }

  lemma {:induction false} SweepDropsOnlyExpired(entries: seq<Entry>, now: Millis)
    ensures if AllLive(entries, now) then Sweep(entries, now) == entries else |Sweep(entries, now)| < |entries|
  {
    if entries != [] {
      SweepDropsOnlyExpired(entries[1..], now);
      assert entries == [entries[0]] + entries[1..];
    }
  }

  lemma {:induction false} DeletingNothing(entries: seq<Entry>, key: string)
    requires Get(entries, key).None?
    ensures Delete(entries, key) == entries
  {
    if entries != [] { DeletingNothing(entries[1..], key); }
  }


  lemma HeadAndTail(left: seq<Entry>, right: seq<Entry>)
    requires left != []
    ensures (left + right)[0] == left[0] && (left + right)[1..] == left[1..] + right
  {
  }

  lemma Regroup(a: seq<Entry>, b: seq<Entry>, c: seq<Entry>)
    ensures a + (b + c) == a + b + c
  {
  }

  /** Deleting and sweeping go through the map one window at a time and keep the order of the rest. */
  lemma {:induction false} DeletingKeepsOrder(left: seq<Entry>, right: seq<Entry>, key: string)
    ensures Delete(left + right, key) == Delete(left, key) + Delete(right, key)
  {
    if left == [] {
      assert left + right == right;
    } else {
      DeletingKeepsOrder(left[1..], right, key);
      HeadAndTail(left, right);
      Regroup([left[0]], Delete(left[1..], key), Delete(right, key));
    }
  }

  lemma {:induction false} SweepingKeepsOrder(left: seq<Entry>, right: seq<Entry>, now: Millis)
    ensures Sweep(left + right, now) == Sweep(left, now) + Sweep(right, now)
  {
    hide Expired;
    if left == [] {
      assert left + right == right;
    } else {
      SweepingKeepsOrder(left[1..], right, now);
      HeadAndTail(left, right);
      Regroup([left[0]], Sweep(left[1..], now), Sweep(right, now));
    }
  }

  /** The window attempted now becomes the newest. The others stay as they are while there is room;
      when there is none the expired ones go, and only if every window is live the oldest does. */
  lemma ExpiredWindowsGoFirst(entries: seq<Entry>, key: string, maximum: nat, now: Millis, capacity: nat)
    requires Distinct(entries) && |entries| <= capacity && capacity > 0
    ensures var after, live := Attempt(entries, key, maximum, now, capacity), Live(entries, key, now);
            var others := Delete(entries, key);
            var newest := if live.None? then Window(now, 1)
                          else Window(live.value.startedAt,
                                      live.value.attempts + if live.value.attempts < maximum then 1 else 0);
            var kept := if live.Some? || |others| < capacity then others
                        else if AllLive(others, now) then others[1..] else Sweep(others, now);
            && after.entries == kept + [Entry(key, newest)]
            && after.forgotten ==
               if live.None? && |others| == capacity && AllLive(others, now) then [others[0]] else []
  {
    hide Distinct, Get, Delete, Sweep, AllLive;
    DeleteIsExact(entries, key, key);
    var rest := Current(entries, key, now);
    if Live(entries, key, now).None? {
      CurrentIsRest(entries, key, now);
      SweepDropsOnlyExpired(rest, now);
      SweepIsExact(rest, now, key);
    }
  }

  lemma CurrentIsRest(entries: seq<Entry>, key: string, now: Millis)
    requires Distinct(entries) && Live(entries, key, now).None?
    ensures Current(entries, key, now) == Delete(entries, key) && Get(Current(entries, key, now), key).None?
    ensures Distinct(Delete(entries, key))
  {
    hide Distinct;
    DeleteIsExact(entries, key, key);
    if Get(entries, key).None? { DeletingNothing(entries, key); }
  }

  // ----- histories -----

  /** A login or enrollment attempt at a time, or the clearing of a key after a success. */
  datatype Call = Try(key: string, now: Millis) | Clear(key: string)

  type Limits = string -> nat

  function After(entries: seq<Entry>, call: Call, limits: Limits, capacity: nat): seq<Entry>
    requires capacity > 0
  {
    match call
    case Try(key, now) => Attempt(entries, key, limits(key), now, capacity).entries
    case Clear(key) => Delete(entries, key)
  }

  ghost predicate Permits(entries: seq<Entry>, call: Call, key: string, limits: Limits, capacity: nat)
    requires capacity > 0
  {
    call.Try? && call.key == key && Attempt(entries, key, limits(key), call.now, capacity).permitted
  }

  /** The call clears the key, or evicts its window for want of room. */
  ghost predicate Forgets(entries: seq<Entry>, call: Call, key: string, limits: Limits, capacity: nat)
    requires capacity > 0
  {
    match call
    case Try(other, now) => Dropped(Attempt(entries, other, limits(other), now, capacity).forgotten, key)
    case Clear(other) => other == key
  }

  ghost predicate IsRun(states: seq<seq<Entry>>, calls: seq<Call>, limits: Limits, capacity: nat)
    requires capacity > 0
  {
    && |states| == |calls| + 1 && states[0] == []
    && (forall n :: 0 <= n < |calls| ==> states[n + 1] == After(states[n], calls[n], limits, capacity))
    && (forall m, n :: 0 <= m < n < |calls| && calls[m].Try? && calls[n].Try? ==> calls[m].now <= calls[n].now)
  }

  ghost function PermitsOf(states: seq<seq<Entry>>, calls: seq<Call>, key: string, limits: Limits, capacity: nat,
                           i: nat, j: nat): nat
    requires capacity > 0 && i <= j <= |calls| < |states|
  {
    if i == j then 0
    else PermitsOf(states, calls, key, limits, capacity, i, j - 1) +
         (if Permits(states[j - 1], calls[j - 1], key, limits, capacity) then 1 else 0)
  }

  ghost predicate Bounded(entries: seq<Entry>, limits: Limits, capacity: nat) {
    && Distinct(entries) && |entries| <= capacity
    && forall key: string :: Get(entries, key).Some? ==> Get(entries, key).value.attempts <= limits(key)
  }

  ghost predicate Positive(limits: Limits) { forall key: string :: limits(key) > 0 }

  lemma CallKeepsBounded(entries: seq<Entry>, call: Call, limits: Limits, capacity: nat)
    requires capacity > 0 && Positive(limits) && Bounded(entries, limits, capacity)
    ensures Bounded(After(entries, call, limits, capacity), limits, capacity)
  {
    hide Get, Delete, Distinct, Attempt, Dropped;
    match call
    case Try(key, now) =>
      AttemptMeans(entries, key, limits(key), now, capacity, key);
      forall other: string | Get(After(entries, call, limits, capacity), other).Some?
        ensures Get(After(entries, call, limits, capacity), other).value.attempts <= limits(other)
      {
        AttemptMeans(entries, key, limits(key), now, capacity, other);
      }
    case Clear(key) =>
      DeleteIsExact(entries, key, key);
      forall other: string | Get(After(entries, call, limits, capacity), other).Some?
        ensures Get(After(entries, call, limits, capacity), other).value.attempts <= limits(other)
      {
        DeleteIsExact(entries, key, other);
      }
  }

  /** The map never holds more windows than its capacity. */
  lemma {:induction false} RunStaysBounded(states: seq<seq<Entry>>, calls: seq<Call>, limits: Limits, capacity: nat,
                                           n: nat)
    requires capacity > 0 && Positive(limits) && IsRun(states, calls, limits, capacity) && n < |states|
    ensures Bounded(states[n], limits, capacity)
  {
    hide After;
    if n > 0 {
      RunStaysBounded(states, calls, limits, capacity, n - 1);
      CallKeepsBounded(states[n - 1], calls[n - 1], limits, capacity);
    }
  }

  /** Permits so far in an interval that began at `start`: those counted by a window that began
      in the interval, and before it at most the maximum. */
  ghost predicate Counted(entries: seq<Entry>, key: string, start: Millis, maximum: nat, count: nat) {
    var window := Get(entries, key);
    if window.None? then count <= maximum
    else if window.value.startedAt >= start then count <= maximum + window.value.attempts
    else count <= window.value.attempts
  }

  lemma CallKeepsCounted(entries: seq<Entry>, call: Call, limits: Limits, capacity: nat, key: string, start: Millis,
                         count: nat)
    requires capacity > 0 && Positive(limits) && Bounded(entries, limits, capacity)
    requires Counted(entries, key, start, limits(key), count) && !Forgets(entries, call, key, limits, capacity)
    requires call.Try? ==> start <= call.now < start + ATTEMPT_WINDOW_MS
    requires Get(entries, key).Some? && call.Try? ==> Get(entries, key).value.startedAt <= call.now
    ensures Counted(After(entries, call, limits, capacity), key, start, limits(key),
                    count + if Permits(entries, call, key, limits, capacity) then 1 else 0)
  {
    hide Get, Delete, Distinct, Attempt, Dropped;
    match call
    case Try(other, now) => AttemptMeans(entries, other, limits(other), now, capacity, key);
    case Clear(other) => DeleteIsExact(entries, other, key);
  }

  /** No window starts after the latest attempt. */
  lemma {:induction false} WindowsStartInThePast(states: seq<seq<Entry>>, calls: seq<Call>, limits: Limits,
                                                 capacity: nat, n: nat, key: string, m: nat)
    requires capacity > 0 && Positive(limits) && IsRun(states, calls, limits, capacity) && n <= m < |calls|
             && calls[m].Try?
    requires Get(states[n], key).Some?
    ensures Get(states[n], key).value.startedAt <= calls[m].now
  {
    hide Distinct, Attempt, Dropped;
    if n > 0 {
      RunStaysBounded(states, calls, limits, capacity, n - 1);
      var call := calls[n - 1];
      match call
      case Try(other, now) =>
        AttemptMeans(states[n - 1], other, limits(other), now, capacity, key);
        if Get(states[n - 1], key).Some? { WindowsStartInThePast(states, calls, limits, capacity, n - 1, key, m); }
      case Clear(other) =>
        DeleteIsExact(states[n - 1], other, key);
        WindowsStartInThePast(states, calls, limits, capacity, n - 1, key, m);
    }
  }

  ghost predicate OneWindowLong(calls: seq<Call>, i: nat, j: nat, start: Millis)
    requires j <= |calls|
  {
    forall n :: i <= n < j && calls[n].Try? ==> start <= calls[n].now < start + ATTEMPT_WINDOW_MS
  }

  ghost predicate KeptIn(states: seq<seq<Entry>>, calls: seq<Call>, key: string, limits: Limits, capacity: nat, i: nat,
                         j: nat)
    requires capacity > 0 && j <= |calls| < |states|
  {
    forall n :: i <= n < j ==> !Forgets(states[n], calls[n], key, limits, capacity)
  }

  lemma {:induction false} IntervalIsCounted(
    states: seq<seq<Entry>>, calls: seq<Call>, limits: Limits, capacity: nat, key: string, i: nat, j: nat,
    start: Millis)
    requires capacity > 0 && Positive(limits) && IsRun(states, calls, limits, capacity) && i <= j <= |calls|
    requires OneWindowLong(calls, i, j, start) && KeptIn(states, calls, key, limits, capacity, i, j)
    ensures Counted(states[j], key, start, limits(key), PermitsOf(states, calls, key, limits, capacity, i, j))
  {
    hide After, Permits, Forgets, Bounded, Positive;
    if i < j {
      IntervalIsCounted(states, calls, limits, capacity, key, i, j - 1, start);
      RunStaysBounded(states, calls, limits, capacity, j - 1);
      if Get(states[j - 1], key).Some? && calls[j - 1].Try? {
        WindowsStartInThePast(states, calls, limits, capacity, j - 1, key, j - 1);
      }
      CallKeepsCounted(states[j - 1], calls[j - 1], limits, capacity, key, start,
                       PermitsOf(states, calls, key, limits, capacity, i, j - 1));
    }
  }

  /** However attempts are spread, any interval one window long permits a key that is not
      forgotten in it at most twice its maximum. */
  lemma AtMostTwiceTheMaximum(
    states: seq<seq<Entry>>, calls: seq<Call>, limits: Limits, capacity: nat, key: string, i: nat, j: nat,
    start: Millis)
    requires capacity > 0 && Positive(limits) && IsRun(states, calls, limits, capacity) && i <= j <= |calls|
    requires OneWindowLong(calls, i, j, start) && KeptIn(states, calls, key, limits, capacity, i, j)
    ensures PermitsOf(states, calls, key, limits, capacity, i, j) <= 2 * limits(key)
  {
    hide OneWindowLong, KeptIn, PermitsOf, Positive, After;
    IntervalIsCounted(states, calls, limits, capacity, key, i, j, start);
    RunStaysBounded(states, calls, limits, capacity, j);
  }

  // ----- the limiter -----

  ghost predicate Named(entries: seq<Entry>) { forall i :: 0 <= i < |entries| ==> entries[i].key != "" }

  lemma {:induction false} DeleteKeepsNamed(entries: seq<Entry>, key: string)
    requires Named(entries)
    ensures Named(Delete(entries, key))
  {
    if entries != [] { DeleteKeepsNamed(entries[1..], key); }
  }

  lemma {:induction false} SweepKeepsNamed(entries: seq<Entry>, now: Millis)
    requires Named(entries)
    ensures Named(Sweep(entries, now))
  {
    if entries != [] { SweepKeepsNamed(entries[1..], now); }
  }

  class Limiter {
    const capacity: nat
    var attempts: seq<Entry>

    constructor (capacity: nat)
      requires 1 <= capacity <= 65_536
      ensures attempts == [] && this.capacity == capacity
    {
      this.capacity := capacity;
      attempts := [];
    }

    method DeleteKey(key: string)
      modifies this
      ensures attempts == Delete(old(attempts), key)
    {
      var kept: seq<Entry> := [];
      for i := 0 to |attempts|
        invariant attempts == old(attempts)
        invariant Delete(attempts, key) == kept + Delete(attempts[i..], key)
      {
        if attempts[i].key != key { kept := kept + [attempts[i]]; }
      }
      assert kept + [] == kept;
      attempts := kept;
    }

    method DeleteExpired(now: Millis)
      modifies this
      ensures attempts == Sweep(old(attempts), now)
    {
      var kept: seq<Entry> := [];
      for i := 0 to |attempts|
        invariant attempts == old(attempts)
        invariant Sweep(attempts, now) == kept + Sweep(attempts[i..], now)
      {
        if !Expired(attempts[i].window, now) { kept := kept + [attempts[i]]; }
      }
      assert kept + [] == kept;
      attempts := kept;
    }

    /** Delete the oldest windows until there is room; an empty key would end the loop early. */
    method MakeRoom()
      requires capacity > 0 && Named(attempts)
      modifies this
      ensures attempts == Evict(old(attempts), capacity) && Named(attempts)
    {
      ghost var dropped := 0;
      while |attempts| >= capacity
        invariant dropped <= |old(attempts)| && attempts == old(attempts)[dropped..]
        invariant dropped > 0 ==> |attempts| + 1 >= capacity
      {
        var oldest := attempts[0].key;
        if oldest == "" { break; }
        attempts := attempts[1..];
        dropped := dropped + 1;
      }
    }

    /** Keys carry the prefix of their route, so none is empty. */
    method PermitAttempt(key: string, maximum: nat, now: Millis) returns (permitted: bool)
      requires capacity > 0 && key != "" && Distinct(attempts) && Named(attempts) && |attempts| <= capacity
      modifies this
      ensures var outcome := Attempt(old(attempts), key, maximum, now, capacity);
              attempts == outcome.entries && permitted == outcome.permitted
      ensures Distinct(attempts) && Named(attempts) && |attempts| <= capacity
    {
      hide Get, Delete, Sweep, Distinct, Live;
      AttemptKeepsRoom(attempts, key, maximum, now, capacity);
      var current := Get(attempts, key);
      if current.Some? && Expired(current.value, now) {
        DeleteKeepsNamed(attempts, key);
        DeleteKey(key);
      }
      var active := Get(attempts, key);
      if active.Some? {
        DeleteKeepsNamed(attempts, key);
        DeleteKey(key);
        permitted := active.value.attempts < maximum;
        attempts := attempts + [Entry(key, if permitted then active.value.(attempts := active.value.attempts + 1)
                                           else active.value)];
        return;
      }
      if |attempts| >= capacity {
        SweepKeepsNamed(attempts, now);
        DeleteExpired(now);
      }
      MakeRoom();
      attempts := attempts + [Entry(key, Window(now, 1))];
      permitted := true;
    }

    method ClearAttempts(key: string)
      requires Distinct(attempts) && Named(attempts)
      modifies this
      ensures attempts == Delete(old(attempts), key)
      ensures Distinct(attempts) && Named(attempts) && |attempts| <= old(|attempts|)
    {
      DeleteIsExact(attempts, key, key);
      DeleteKeepsNamed(attempts, key);
      DeleteKey(key);
    }
  }
}
