/** The timer queue of an event loop (timer.c). */
module Timers {
  import opened Basics
  import opened HeapNodes
  import opened HeapOrder
  import opened Heaps

  const MAX64: nat := 0xFFFF_FFFF_FFFF_FFFF
  const EINVAL: int := -22
  const INT_MAX: int := 0x7FFF_FFFF

  /** The time at which a timer started now is due, in 64-bit arithmetic. */
  function Due(time: nat, timeout: nat): nat {
    var clamped := (time + timeout) % (MAX64 + 1);
    if clamped < timeout then MAX64 else clamped
  }

  /** The wrap-around test saturates. */
  lemma {:induction false} DueSaturates(time: nat, timeout: nat)
    requires time <= MAX64 && timeout <= MAX64
    ensures Due(time, timeout) ==
            if time + timeout <= 0xFFFF_FFFF_FFFF_FFFF then time + timeout else 0xFFFF_FFFF_FFFF_FFFF
  {
  }

  class Loop {
    const heap: Heap
    var time: nat
    var timerCounter: nat
    /** the timers initialised on this loop */
    ghost var handles: set<Timer>

    /** A handle is active exactly when it is in the heap; start ids tell active timers apart. */
    ghost predicate Valid()
      reads this, heap, heap.nodes, handles
    {
      && heap.Valid() && time <= MAX64
      && (forall t | t in heap.nodes :: t in handles)
      && (forall t | t in handles :: t.active <==> t in heap.nodes)
      && (forall t | t in heap.nodes :: t.callback.Some? && !t.closing && t.startId < timerCounter && t.repeat <= MAX64)
      && (forall t, u | t in heap.nodes && u in heap.nodes && t != u :: t.startId != u.startId)
    }

    constructor ()
      ensures Valid() && handles == {} && fresh(heap) && heap.nodes == []
    {
      heap := new Heap();
      time, timerCounter, handles := 0, 0, {};
    }

    /** uv_timer_init. */
    method Init(t: Timer)
      requires Valid() && t !in handles
      modifies this`handles, t`callback, t`repeat, t`active, t`closing
      ensures Valid() && handles == old(handles) + {t} && !t.active
    {
      t.callback, t.repeat, t.active, t.closing := None, 0, false, false;
      handles := handles + {t};
    }

    /** uv_timer_stop. */
    method Stop(t: Timer)
      requires Valid() && t in handles
      modifies heap, handles`left, handles`right, handles`parent, t`active
      ensures Valid() && !t.active
      ensures forall u :: u in heap.nodes <==> u in old(heap.nodes) && u != t
    {
      if !t.active {
        return;
      }
      heap.Remove(t);
      t.active := false;
    }

    /** The fields of a handle that is not in the heap may be set freely. */
    method Stamp(t: Timer, callback: nat, timeout: nat, repeat: nat)
      requires Valid() && t in handles && !t.active
      modifies this`timerCounter, t`callback, t`timeout, t`repeat, t`startId
      ensures Valid() && timerCounter == old(timerCounter) + 1
      ensures t.timeout == timeout && t.startId == old(timerCounter) && t.repeat == repeat && t.callback == Some(callback)
    {
      hide Linked, Ordered;
      t.callback, t.timeout, t.repeat, t.startId := Some(callback), timeout, repeat, timerCounter;
      timerCounter := timerCounter + 1;
    }

    /** The second half of uv_timer_start: the handle is not in the heap. */
    method Arm(t: Timer, callback: nat, timeout: nat, repeat: nat)
      requires Valid() && t in handles && timeout <= MAX64 && repeat <= MAX64
      requires !t.active && !t.closing
      modifies this`timerCounter, heap, handles`left, handles`right, handles`parent, t
      ensures Valid() && timerCounter == old(timerCounter) + 1
      ensures t.active && t.timeout == Due(time, timeout) && t.startId == old(timerCounter) && t.repeat == repeat
      ensures t.callback == Some(callback) && !t.closing
      ensures forall u :: u in heap.nodes <==> u in old(heap.nodes) || u == t
    {
      hide Linked, Ordered, Due;
      Stamp(t, callback, Due(time, timeout), repeat);
      heap.Insert(t);
      t.active := true;
    }

    /** uv_timer_start. */
    method Start(t: Timer, callback: Option<nat>, timeout: nat, repeat: nat) returns (status: int)
      requires Valid() && t in handles && timeout <= MAX64 && repeat <= MAX64
      modifies this`timerCounter, heap, handles`left, handles`right, handles`parent, t
      ensures Valid()
      ensures status == if old(t.closing) || callback.None? then -22 else 0
      ensures status != 0 ==> unchanged(this, heap, handles)
      ensures status == 0 ==>
        && t.active && t.startId == old(timerCounter) && timerCounter == old(timerCounter) + 1
        && t.timeout == Due(time, timeout)
        && t.timeout == (if time + timeout <= 0xFFFF_FFFF_FFFF_FFFF then time + timeout else 0xFFFF_FFFF_FFFF_FFFF)
        && t.repeat == repeat && t.callback == callback && !t.closing
      ensures status == 0 ==> forall u :: u in heap.nodes <==> u in old(heap.nodes) || u == t
    {
      if t.closing || callback.None? {
        return EINVAL;
      }
      if t.active {
        Stop(t);
      }
      DueSaturates(time, timeout);
      Arm(t, callback.value, timeout, repeat);
      status := 0;
    }

    /** uv_timer_again: a repeating timer starts over with its repeat value. */
    method Again(t: Timer) returns (status: int)
      requires Valid() && t in handles && t.repeat <= MAX64
      modifies this`timerCounter, heap, handles`left, handles`right, handles`parent, t
      ensures Valid() && timerCounter >= old(timerCounter)
      ensures status == if old(t.callback).None? then -22 else 0
      ensures t.callback == old(t.callback) && t.closing == old(t.closing) && t.repeat == old(t.repeat)
      ensures old(t.callback).None? || t.repeat == 0 ==> unchanged(this, heap, handles)
      ensures old(t.callback).Some? && t.repeat != 0 && !t.closing ==>
        t.active && t.timeout == Due(time, t.repeat) && t.startId == old(timerCounter) && timerCounter == old(timerCounter) + 1
      ensures t.repeat == 0 || t.closing ==> timerCounter == old(timerCounter)
      ensures t.closing ==> t.active == old(t.active) && t.timeout == old(t.timeout) && t.startId == old(t.startId)
      ensures forall u | u != t :: u in heap.nodes <==> u in old(heap.nodes)
    {
      if t.callback.None? {
        return EINVAL;
      }
      if t.repeat != 0 {
        Stop(t);
        var ignored := Start(t, t.callback, t.repeat, t.repeat);
      }
      status := 0;
    }

    /** uv__timer_close, on a handle marked as closing. */
    method Close(t: Timer)
      requires Valid() && t in handles
      modifies heap, handles`left, handles`right, handles`parent, t`active, t`closing
      ensures Valid() && !t.active && t.closing
      ensures forall u :: u in heap.nodes <==> u in old(heap.nodes) && u != t
    {
      Stop(t);
      t.closing := true;
    }

    /** uv__next_timeout: how long to block; -1 without active timers. */
    method NextTimeout() returns (r: int)
      requires Valid()
      ensures r >= -1 && (r == -1 <==> heap.nodes == [])
      ensures r == 0 <==> exists t :: t in heap.nodes && t.timeout <= time
      ensures r > 0 ==> r <= 0x7FFF_FFFF && forall t | t in heap.nodes :: t.timeout - time >= r
      ensures 0 < r < 0x7FFF_FFFF ==> exists t :: t in heap.nodes && t.timeout - time == r
    {
      var t := heap.Min();
      if t == null {
        return -1;
      }
      if t.timeout <= time {
        return 0;
      }
      var diff := t.timeout - time;
      r := if diff > INT_MAX then INT_MAX else diff;
    }
  
    /** One round of uv__run_timers: the first due timer is stopped and, if it repeats, started
        again; its callback runs. */
    method FireNext() returns (t: Timer?)
      requires Valid() && time < MAX64
      modifies this`timerCounter, heap, handles
      ensures Valid() && timerCounter >= old(timerCounter)
      ensures t == null ==> unchanged(this, heap, handles) && forall u | u in heap.nodes :: u.timeout > time
      ensures t != null ==>
        && t in old(heap.nodes) && old(t.timeout) <= time
        && (forall u | u in old(heap.nodes) && u != t ::
              old(t.timeout) < old(u.timeout) || (old(t.timeout) == old(u.timeout) && old(t.startId) < old(u.startId)))
        && (forall u | u != t :: u in heap.nodes <==> u in old(heap.nodes))
        && Fired(time, Snap(t)) && t.repeat == old(t.repeat) && t.callback == old(t.callback) && t.closing == old(t.closing)
        && (if t.repeat == 0 then timerCounter == old(timerCounter)
            else t.startId == old(timerCounter) && timerCounter == old(timerCounter) + 1)
        && (forall u | u in handles && u != t :: Snap(u) == old(Snap(u)))
    {
      hide Linked, Ordered, Due;
      t := heap.Min();
      if t == null || t.timeout > time {
        t := null;
        return;
      }
      forall u | u in heap.nodes && u != t ensures Precedes(t.Key(), u.Key()) {
        assert !Precedes(u.Key(), t.Key()) && u.startId != t.startId;
      }
      Stop(t);
      var status := Again(t);
      DueSaturates(time, t.repeat);
    }

    /** The timers of done have fired, and the repeating ones hold the start ids of ids; every other one is
        as it was. */
    ghost predicate Progress(was: map<Timer, Status>, done: set<Timer>, ids: map<Timer, nat>)
      reads this, handles
    {
      && was.Keys == handles && done <= handles && ids.Keys == done
      && (forall t | t in done :: Fired(time, Snap(t)) && SameTimer(was[t], Snap(t)) && (t.repeat != 0 ==> t.startId == ids[t]))
      && (forall t | t in handles && t !in done :: Snap(t) == was[t])
    }

    lemma {:induction false} ProgressAt(was: map<Timer, Status>, done: set<Timer>, ids: map<Timer, nat>, t: Timer)
      requires Valid() && Progress(was, done, ids) && t in handles
      ensures t in was
      ensures t in done ==> (t in heap.nodes ==> t.timeout > time)
      ensures t !in done ==> Snap(t) == was[t]
    {
    }

    /** A round, seen from the start of the run. */
    method Round(ghost was: map<Timer, Status>, ghost done: set<Timer>, ghost ids: map<Timer, nat>) returns (t: Timer?)
      requires Valid() && time < MAX64 && Progress(was, done, ids)
      modifies this`timerCounter, heap, handles
      ensures Valid() && timerCounter >= old(timerCounter)
      ensures t == null ==> unchanged(this, heap, handles) && forall u | DueIn(was, u, time) :: u in done
      ensures t != null ==>
        && Progress(was, done + {t}, ids[t := old(timerCounter)]) && DueIn(was, t, time) && t !in done
        && (forall u | DueIn(was, u, time) && u !in done && u != t :: Earlier(was, t, u))
        && timerCounter == old(timerCounter) + if was[t].repeat == 0 then 0 else 1
    {
      hide Fired, Linked, Ordered;
      forall u | u in handles
        ensures u in was && (u !in done ==> Snap(u) == was[u])
        ensures u in done && u in heap.nodes ==> u.timeout > time
      {
        ProgressAt(was, done, ids, u);
      }
      t := FireNext();
    }
  
    /** uv__run_timers, with callbacks that leave the timers alone: every due timer fires once, in
        order of due time and start, and the loop ends because none is due when it is started again. A timer
        keeps its callback, and the ones started again get new start ids in the order in which they fired. */
    method RunTimers(ghost was: map<Timer, Status>) returns (fired: seq<Timer>)
      requires Valid() && time < MAX64
      requires was.Keys == handles && forall t | t in handles :: was[t] == Snap(t)
      modifies this`timerCounter, heap, handles
      ensures Valid()
      ensures forall t :: t in fired <==> DueIn(was, t, time)
      ensures forall t | t in fired :: t in was && Fired(time, Snap(t)) && SameTimer(was[t], Snap(t))
      ensures forall t | t in fired ::
                && t.repeat == was[t].repeat && t.callback == was[t].callback && t.closing == was[t].closing
                && t.active == (t.repeat != 0)
                && (t.repeat != 0 ==> t.timeout == if time + t.repeat <= 0xFFFF_FFFF_FFFF_FFFF then time + t.repeat else 0xFFFF_FFFF_FFFF_FFFF)
      ensures forall i, j | 0 <= i < j < |fired| ::
                || was[fired[i]].timeout < was[fired[j]].timeout
                || (was[fired[i]].timeout == was[fired[j]].timeout && was[fired[i]].startId < was[fired[j]].startId)
      ensures timerCounter == old(timerCounter) + Repeating(was, fired)
      ensures forall i | 0 <= i < |fired| && fired[i].repeat != 0 ::
                fired[i].startId == old(timerCounter) + Repeating(was, fired[..i])
      ensures forall i, j | 0 <= i < j < |fired| && fired[i].repeat != 0 && fired[j].repeat != 0 ::
                old(timerCounter) <= fired[i].startId < fired[j].startId
      ensures forall t | t in handles && t !in fired :: Snap(t) == was[t]
    {
      hide *;
      fired := [];
      NoneRepeat(was, timerCounter);
      ghost var done: set<Timer>, ids: map<Timer, nat> := {}, map[];
      ProgressStart(was);
      while true
        invariant Valid() && Progress(was, done, ids)
        invariant FiredSoFar(was, done, fired, time)
        invariant timerCounter == old(timerCounter) + Repeating(was, fired)
        invariant IdsInOrder(was, fired, ids, old(timerCounter))
        decreases handles - done
      {
        ProgressFacts(was, done, ids);
        ghost var id := timerCounter;
        var t := Round(was, done, ids);
        if t == null {
          break;
        }
        DueKnown(was, t, time);
        OneMoreFired(was, done, fired, time, t);
        RepeatingMore(was, fired, t);
        OneMoreId(was, fired, ids, old(timerCounter), t, id);
        done, ids := done + {t}, ids[t := id];
        fired := fired + [t];
      }
      WhatFired(was, done, ids, fired, old(timerCounter));
    }

    lemma {:induction false} WhatFired(was: map<Timer, Status>, done: set<Timer>, ids: map<Timer, nat>, fired: seq<Timer>, first: nat)
      requires Progress(was, done, ids) && IdsInOrder(was, fired, ids, first)
      requires FiredSoFar(was, done, fired, time) && forall u | DueIn(was, u, time) :: u in done
      ensures forall t :: t in fired <==> DueIn(was, t, time)
      ensures forall t | t in fired :: t in was && Fired(time, Snap(t)) && SameTimer(was[t], Snap(t))
      ensures forall t | t in fired ::
                && t.repeat == was[t].repeat && t.callback == was[t].callback && t.closing == was[t].closing
                && t.active == (t.repeat != 0)
                && (t.repeat != 0 ==> t.timeout == if time + t.repeat <= 0xFFFF_FFFF_FFFF_FFFF then time + t.repeat else 0xFFFF_FFFF_FFFF_FFFF)
      ensures forall i, j | 0 <= i < j < |fired| ::
                || was[fired[i]].timeout < was[fired[j]].timeout
                || (was[fired[i]].timeout == was[fired[j]].timeout && was[fired[i]].startId < was[fired[j]].startId)
      ensures forall i | 0 <= i < |fired| && fired[i].repeat != 0 :: fired[i].startId == first + Repeating(was, fired[..i])
      ensures forall i, j | 0 <= i < j < |fired| && fired[i].repeat != 0 && fired[j].repeat != 0 ::
                first <= fired[i].startId < fired[j].startId
      ensures forall t | t in handles && t !in fired :: Snap(t) == was[t]
    {
      hide Progress, DueIn, Earlier, Repeating, IdsInOrder, FiredSoFar;
      ProgressFacts(was, done, ids);
      FiredInOrder(was, done, fired, time, ids, first);
    }

    lemma {:induction false} ProgressStart(was: map<Timer, Status>)
      requires was.Keys == handles && forall t | t in handles :: was[t] == Snap(t)
      ensures Progress(was, {}, map[])
    {
    }

    lemma {:induction false} ProgressFacts(was: map<Timer, Status>, done: set<Timer>, ids: map<Timer, nat>)
      requires Progress(was, done, ids)
      ensures was.Keys == handles && done <= handles && ids.Keys == done
      ensures forall t | t in done :: Fired(time, Snap(t)) && SameTimer(was[t], Snap(t)) && (t.repeat != 0 ==> t.startId == ids[t])
      ensures forall t | t in handles && t !in done :: Snap(t) == was[t]
    {
    }
  }

  lemma {:induction false} DueKnown(was: map<Timer, Status>, t: Timer, time: nat)
    requires DueIn(was, t, time)
    ensures t in was
  {
  }

  lemma {:induction false} EarlierMeans(was: map<Timer, Status>, a: Timer, b: Timer)
    requires Earlier(was, a, b)
    ensures a in was && b in was
    ensures was[a].timeout < was[b].timeout || (was[a].timeout == was[b].timeout && was[a].startId < was[b].startId)
  {
  }

  /** The repeating timers have got consecutive numbers from first on, in the order in which they fired. */
  ghost predicate IdsInOrder(was: map<Timer, Status>, fired: seq<Timer>, ids: map<Timer, nat>, first: nat) {
    forall i | 0 <= i < |fired| ::
      fired[i] in ids && fired[i] in was && (was[fired[i]].repeat != 0 ==> ids[fired[i]] == first + Repeating(was, fired[..i]))
  }

  lemma {:induction false} OneMoreId(was: map<Timer, Status>, fired: seq<Timer>, ids: map<Timer, nat>, first: nat, t: Timer, id: nat)
    requires IdsInOrder(was, fired, ids, first) && t in was && t !in ids
    requires was[t].repeat != 0 ==> id == first + Repeating(was, fired)
    ensures IdsInOrder(was, fired + [t], ids[t := id], first)
  {
    hide Repeating;
    var run := fired + [t];
    forall i | 0 <= i < |run|
      ensures run[i] in ids[t := id] && run[i] in was
      ensures was[run[i]].repeat != 0 ==> ids[t := id][run[i]] == first + Repeating(was, run[..i])
    {
      if i < |fired| {
        assert run[..i] == fired[..i] && run[i] == fired[i];
      } else {
        assert run[..i] == fired;
      }
    }
  }

  lemma {:induction false} FiredInOrder(was: map<Timer, Status>, done: set<Timer>, fired: seq<Timer>, time: nat,
                                         ids: map<Timer, nat>, first: nat)
    requires FiredSoFar(was, done, fired, time) && forall u | DueIn(was, u, time) :: u in done
    ensures forall t :: t in fired <==> DueIn(was, t, time)
    ensures forall t :: t in fired <==> t in done
    requires IdsInOrder(was, fired, ids, first)
    ensures forall i | 0 <= i < |fired| :: fired[i] in was && fired[i] in ids
    ensures forall i | 0 <= i < |fired| && was[fired[i]].repeat != 0 :: ids[fired[i]] == first + Repeating(was, fired[..i])
    ensures forall i, j | 0 <= i < j < |fired| ::
              || was[fired[i]].timeout < was[fired[j]].timeout
              || (was[fired[i]].timeout == was[fired[j]].timeout && was[fired[i]].startId < was[fired[j]].startId)
    ensures forall i, j | 0 <= i < j < |fired| && was[fired[i]].repeat != 0 ::
              Repeating(was, fired[..i]) < Repeating(was, fired[..j])
  {
    hide Repeating, Earlier, DueIn;
    forall i, j | 0 <= i < j < |fired|
      ensures || was[fired[i]].timeout < was[fired[j]].timeout
              || (was[fired[i]].timeout == was[fired[j]].timeout && was[fired[i]].startId < was[fired[j]].startId)
      ensures was[fired[i]].repeat != 0 ==> Repeating(was, fired[..i]) < Repeating(was, fired[..j])
    {
      EarlierMeans(was, fired[i], fired[j]);
      if was[fired[i]].repeat != 0 {
        RepeatingGrows(was, fired, i, j);
      }
    }
  }

  /** done is what has fired: due timers, in order, each earlier than every due one that has not. */
  ghost predicate FiredSoFar(was: map<Timer, Status>, done: set<Timer>, fired: seq<Timer>, time: nat) {
    && done == (set t | t in fired)
    && (forall t | t in fired :: DueIn(was, t, time))
    && (forall i, j | 0 <= i < j < |fired| :: Earlier(was, fired[i], fired[j]))
    && (forall f, t | f in fired && t in was && DueIn(was, t, time) && t !in done :: Earlier(was, f, t))
  }

  lemma {:induction false} OneMoreFired(was: map<Timer, Status>, done: set<Timer>, fired: seq<Timer>, time: nat, t: Timer)
    requires FiredSoFar(was, done, fired, time) && DueIn(was, t, time) && t !in done
    requires forall u | DueIn(was, u, time) && u !in done && u != t :: Earlier(was, t, u)
    ensures FiredSoFar(was, done + {t}, fired + [t], time)
  {
    hide Earlier, DueIn;
    var run := fired + [t];
    forall i, j | 0 <= i < j < |run|
      ensures Earlier(was, run[i], run[j])
    {
      assert run[i] == fired[i] && fired[i] in fired;
      if j == |fired| {
        DueKnown(was, t, time);
      } else {
        assert run[j] == fired[j];
      }
    }
  }

  /** Firing leaves the repeat value, the callback and the closing mark of a timer alone. */
  predicate SameTimer(a: Status, b: Status) {
    b.repeat == a.repeat && b.callback == a.callback && b.closing == a.closing
  }

  /** How many of these timers repeat. */
  ghost function Repeating(was: map<Timer, Status>, ts: seq<Timer>): nat {
    if ts == [] then 0
    else
      var t := ts[|ts| - 1];
      Repeating(was, ts[..|ts| - 1]) + if t in was && was[t].repeat != 0 then 1 else 0
  }

  lemma {:induction false} NoneRepeat(was: map<Timer, Status>, first: nat)
    ensures Repeating(was, []) == 0 && IdsInOrder(was, [], map[], first)
    ensures forall time :: FiredSoFar(was, {}, [], time)
  {
  }

  lemma {:induction false} RepeatingMore(was: map<Timer, Status>, ts: seq<Timer>, t: Timer)
    requires t in was
    ensures Repeating(was, ts + [t]) == Repeating(was, ts) + if was[t].repeat != 0 then 1 else 0
  {
    assert (ts + [t])[..|ts|] == ts;
  }

  lemma {:induction false} RepeatingGrows(was: map<Timer, Status>, ts: seq<Timer>, i: nat, j: nat)
    requires i < j <= |ts| && ts[i] in was && was[ts[i]].repeat != 0
    ensures Repeating(was, ts[..i]) < Repeating(was, ts[..j])
  {
    assert ts[..j] == ts[..j - 1] + [ts[j - 1]];
    assert ts[..j][..|ts[..j]| - 1] == ts[..j - 1];
    if i < j - 1 {
      RepeatingGrows(was, ts, i, j - 1);
    }
  }

  ghost predicate Earlier(was: map<Timer, Status>, older a: Timer, older b: Timer) {
    a in was && b in was && Precedes(was[a].Key(), was[b].Key())
  }

  /** What a timer shows, apart from its place in the heap. */
  datatype Status = Status(timeout: nat, startId: nat, repeat: nat, active: bool, callback: Option<nat>, closing: bool) {
    function Key(): Rank {
      Rank(timeout, startId)
    }
  }

  function Snap(t: Timer): Status
    reads t`timeout, t`startId, t`repeat, t`active, t`callback, t`closing
  {
    Status(t.timeout, t.startId, t.repeat, t.active, t.callback, t.closing)
  }

  /** A timer that has just fired: stopped, or started again for a time still to come. */
  ghost predicate Fired(time: nat, t: Status) {
    if t.repeat == 0 then !t.active
    else
      && t.active && t.timeout > time
      && t.timeout == if time + t.repeat <= 0xFFFF_FFFF_FFFF_FFFF then time + t.repeat else 0xFFFF_FFFF_FFFF_FFFF
  }

  /** t was active, and due by the given time. */
  ghost predicate DueIn(was: map<Timer, Status>, older t: Timer, time: nat) {
    t in was && was[t].active && was[t].timeout <= time
  }
}
