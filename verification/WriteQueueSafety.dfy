/** What holds in every run of the write queue. */
module WriteQueueSafety {
  import opened WriteQueue

  lemma {:induction false} GroupSyncs(ws: seq<Writer>, count: nat)
    requires IsGroup(ws, count)
    ensures forall i | 0 <= i < count :: ws[i].sync ==> ws[0].sync
  {
    forall i | 1 <= i < count ensures ws[i].sync ==> ws[0].sync {
      assert Joins(ws, i);
    }
  }

  lemma {:induction false} StepQueued(s: State, step: Step)
    requires Queued(s) && Enabled(s, step)
    ensures Queued(Next(s, step))
  {
    hide AllUpdates, IsGroup;
    match step
    case Join(w) =>
      if s.leader.Grouped? {
        assert (s.queue + [w])[..s.leader.count] == s.queue[..s.leader.count];
      }
    case Build(count) =>
      if s.queue[0].batch.Some? {
        GroupSyncs(s.queue, count);
        GroupSize(s.queue, count);
      }
    case Append =>
    case Sync =>
    case Apply =>
    case Publish =>
    case Lead =>
  }

  lemma {:induction false} GroupSize(ws: seq<Writer>, count: nat)
    requires IsGroup(ws, count)
    ensures 0 < count <= |ws|
  {
  }

  /** A group is a stretch of the calls. */
  lemma {:induction false} GroupUpdates(s: State, n: nat)
    requires Queued(s) && n <= |s.queue|
    ensures AllUpdates(s.arrivals[..s.returned + n]) == AllUpdates(s.arrivals[..s.returned]) + AllUpdates(s.queue[..n])
    ensures s.queue[..n] == s.arrivals[s.returned..s.returned + n]
  {
    assert s.arrivals[..s.returned + n] == s.arrivals[..s.returned] + s.queue[..n];
    AllUpdatesAppend(s.arrivals[..s.returned], s.queue[..n]);
  }

  lemma {:induction false} PublishCounted(s: State)
    requires Queued(s) && Counted(s) && Enabled(s, Publish)
    ensures Counted(Next(s, Publish))
  {
    hide AllUpdates;
    GroupUpdates(s, s.leader.count);
    assert s.leader.updates[..|s.leader.updates|] == s.leader.updates;
    var all := AllUpdates(s.arrivals[..s.returned]) + s.leader.updates;
    assert all + [] == all;
  }

  lemma {:induction false} ApplyCounted(s: State)
    requires Queued(s) && Counted(s) && Enabled(s, Apply)
    ensures Counted(Next(s, Apply))
  {
    hide AllUpdates;
    var t := Next(s, Apply);
    var u := AllUpdates(s.arrivals[..s.returned]);
    assert u + Partial(t) == (u + Partial(s)) + [s.leader.updates[s.leader.applied]];
  }

  lemma {:induction false} BuildCounted(s: State, count: nat)
    requires Queued(s) && Counted(s) && Enabled(s, Build(count))
    ensures Counted(Next(s, Build(count)))
  {
    var t, u := Next(s, Build(count)), AllUpdates(s.arrivals[..s.returned]);
    assert Partial(s) == [] && Partial(t) == [];
    if s.queue[0].batch.None? {
      GroupUpdates(s, 1);
      assert s.queue[..1] == [s.queue[0]];
      assert AllUpdates([s.queue[0]]) == AllUpdates([]) + [];
      assert u + [] == u;
    }
  }

  lemma {:induction false} StepCounted(s: State, step: Step)
    requires Queued(s) && Counted(s) && Enabled(s, step)
    ensures Next(s, step).returned <= |Next(s, step).arrivals| && Counted(Next(s, step))
  {
    hide AllUpdates, Numbered, IsGroup;
    match step
    case Join(w) => assert (s.arrivals + [w])[..s.returned] == s.arrivals[..s.returned];
    case Lead =>
    case Build(count) => BuildCounted(s, count);
    case Append =>
    case Sync =>
    case Apply => ApplyCounted(s);
    case Publish => PublishCounted(s);
  }

  lemma {:induction false} RecordKept(s: State, t: State, r: Record)
    requires RecordOk(s, r) && s.arrivals <= t.arrivals && t.base == s.base
    ensures RecordOk(t, r)
  {
    hide AllUpdates;
    assert t.arrivals[r.start..r.start + r.count] == s.arrivals[r.start..r.start + r.count];
    assert t.arrivals[..r.start] == s.arrivals[..r.start];
  }

  /** Steps that leave the log alone. */
  lemma {:induction false} QuietLog(s: State, step: Step)
    requires Queued(s) && LogOk(s) && Enabled(s, step) && (step.Join? || step.Lead? || step.Apply?)
    ensures LogOk(Next(s, step))
  {
    hide RecordOk, Queued, AllUpdates;
    var t := Next(s, step);
    forall i | 0 <= i < |t.log| ensures RecordOk(t, t.log[i]) {
      RecordKept(s, t, s.log[i]);
    }
    forall k: nat | k < Logged(t) && k < |t.arrivals| && t.arrivals[k].batch.Some? ensures Covered(t, k) {
      QueuedBound(s);
      assert Covered(s, k);
    }
  }

  lemma {:induction false} QueuedBound(s: State)
    requires Queued(s)
    ensures Logged(s) <= |s.arrivals|
  {
  }

  lemma {:induction false} BuildLog(s: State, count: nat)
    requires Queued(s) && LogOk(s) && Enabled(s, Build(count))
    ensures LogOk(Next(s, Build(count)))
  {
    hide RecordOk, AllUpdates;
    var t := Next(s, Build(count));
    forall i | 0 <= i < |t.log| ensures RecordOk(t, t.log[i]) {
      RecordKept(s, t, s.log[i]);
    }
    forall k: nat | k < Logged(t) && k < |t.arrivals| && t.arrivals[k].batch.Some? ensures Covered(t, k) {
      assert k < s.returned;
      assert Covered(s, k);
    }
  }

  lemma {:induction false} AppendLog(s: State)
    requires Queued(s) && Counted(s) && LogOk(s) && Enabled(s, Append)
    ensures LogOk(Next(s, Append))
  {
    hide AllUpdates;
    var t := Next(s, Append);
    var r := t.log[|s.log|];
    GroupUpdates(s, s.leader.count);
    forall i | 0 <= i < |t.log| ensures RecordOk(t, t.log[i]) {
      if i < |s.log| {
        RecordKept(s, t, s.log[i]);
      }
    }
    forall k: nat | k < Logged(t) && k < |t.arrivals| && t.arrivals[k].batch.Some? ensures Covered(t, k) {
      if k < s.returned {
        assert Covered(s, k);
        var i :| 0 <= i < |s.log| && s.log[i].start <= k < s.log[i].start + s.log[i].count && (s.arrivals[k].sync ==> s.log[i].synced);
        assert t.log[i] == s.log[i];
      } else {
        assert r.start <= k < r.start + r.count;
      }
    }
  }

  lemma {:induction false} SyncLog(s: State)
    requires Queued(s) && LogOk(s) && Enabled(s, Sync)
    ensures LogOk(Next(s, Sync))
  {
    hide AllUpdates, RecordOk, Queued, Covered;
    var t := Next(s, Sync);
    forall i | 0 <= i < |t.log|
      ensures t.log[i].start == s.log[i].start && t.log[i].count == s.log[i].count
      ensures RecordOk(t, t.log[i])
    {
      RecordSynced(s, t, s.log[i]);
    }
    QueuedBound(s);
    forall k: nat | k < Logged(t) && k < |t.arrivals| && t.arrivals[k].batch.Some? ensures Covered(t, k) {
      CoveredSynced(s, t, k);
    }
  }

  lemma {:induction false} RecordSynced(s: State, t: State, r: Record)
    requires RecordOk(s, r) && t.arrivals == s.arrivals && t.base == s.base
    ensures RecordOk(t, r) && RecordOk(t, r.(synced := true))
  {
    hide AllUpdates;
  }

  lemma {:induction false} CoveredSynced(s: State, t: State, k: nat)
    requires k < |s.arrivals| && Covered(s, k) && t.arrivals == s.arrivals && t.returned == s.returned && s.log != []
    requires t.log == s.log[|s.log| - 1 := s.log[|s.log| - 1].(synced := true)]
    ensures Covered(t, k)
  {
    var i :| 0 <= i < |s.log| && s.log[i].start <= k < s.log[i].start + s.log[i].count
      && (k < s.returned && s.arrivals[k].sync ==> s.log[i].synced);
    assert t.log[i].start == s.log[i].start && t.log[i].count == s.log[i].count;
  }

  lemma {:induction false} PublishLog(s: State)
    requires Queued(s) && LogOk(s) && Enabled(s, Publish)
    ensures LogOk(Next(s, Publish))
  {
    hide AllUpdates;
    var t := Next(s, Publish);
    var last := |s.log| - 1;
    forall i | 0 <= i < |t.log| ensures RecordOk(t, t.log[i]) {
      assert RecordOk(s, s.log[i]);
    }
    forall k: nat | k < Logged(t) && k < |t.arrivals| && t.arrivals[k].batch.Some? ensures Covered(t, k) {
      if k < s.returned {
        assert Covered(s, k);
      } else {
        assert s.queue[k - s.returned] == s.arrivals[k];
        assert s.log[last].start <= k < s.log[last].start + s.log[last].count;
      }
    }
  }

  lemma {:induction false} StepKeepsInv(s: State, step: Step)
    requires Inv(s) && Enabled(s, step)
    ensures Inv(Next(s, step))
  {
    hide Queued, Counted, LogOk, Enabled, Next;
    StepQueued(s, step);
    StepCounted(s, step);
    match step
    case Join(w) => QuietLog(s, step);
    case Lead => QuietLog(s, step);
    case Build(count) => BuildLog(s, count);
    case Append => AppendLog(s);
    case Sync => SyncLog(s);
    case Apply => QuietLog(s, step);
    case Publish => PublishLog(s);
  }

  lemma {:induction false} RunKeepsInv(run: seq<State>, i: nat)
    requires IsRun(run) && i < |run|
    ensures Inv(run[i])
  {
    hide Inv, Enabled, Next;
    if i == 0 {
      InitialInv(run[0]);
    } else {
      RunKeepsInv(run, i - 1);
      assert Follows(run[i - 1], run[i]);
      var step :| Enabled(run[i - 1], step) && run[i] == Next(run[i - 1], step);
      StepKeepsInv(run[i - 1], step);
    }
  }

  lemma {:induction false} InitialInv(s: State)
    requires Initial(s)
    ensures Inv(s)
  {
    assert s.arrivals[..s.returned] == [];
    assert AllUpdates([]) + Partial(s) == [];
  }

  /** A reader at the last sequence number sees exactly the updates of the calls that have returned,
      each whole batch, numbered in the order of the calls. */
  lemma {:induction false} VisibleIsReturned(run: seq<State>, i: nat)
    requires IsRun(run) && i < |run|
    ensures var s := run[i];
      var n := s.lastSequence - s.base;
      && 0 <= n <= |s.mem| && s.returned <= |s.arrivals|
      && Numbered(s.mem[..n], s.base, AllUpdates(s.arrivals[..s.returned]))
      && (forall j | 0 <= j < |s.mem| :: s.mem[j].seqno <= s.lastSequence <==> j < n)
  {
    hide IsRun, AllUpdates, LogOk;
    RunKeepsInv(run, i);
  }

  /** Each call with a batch that has returned is in one log record, which holds its group's updates
      under their sequence numbers, and which was synced if the call asked for it. */
  lemma {:induction false} LoggedOnce(run: seq<State>, i: nat, k: nat) returns (j: nat)
    requires IsRun(run) && i < |run| && k < run[i].returned <= |run[i].arrivals| && run[i].arrivals[k].batch.Some?
    ensures var s := run[i];
      && j < |s.log| && RecordOk(s, s.log[j]) && (s.arrivals[k].sync ==> s.log[j].synced)
      && forall m | 0 <= m < |s.log| :: s.log[m].start <= k < s.log[m].start + s.log[m].count <==> m == j
  {
    hide IsRun, RecordOk;
    RunKeepsInv(run, i);
    var s := run[i];
    assert Covered(s, k);
    j :| j < |s.log| && s.log[j].start <= k < s.log[j].start + s.log[j].count && (s.arrivals[k].sync ==> s.log[j].synced);
    forall m | 0 <= m < |s.log| && m != j ensures !(s.log[m].start <= k < s.log[m].start + s.log[m].count) {
      RecordsApart(s, if m < j then m else j, if m < j then j else m);
    }
  }

  lemma {:induction false} RecordsApart(s: State, i: nat, j: nat)
    requires LogOk(s) && i < j < |s.log|
    ensures s.log[i].start + s.log[i].count <= s.log[j].start
  {
  }

  /** What recovery reads from the log. */
  function Replay(log: seq<Record>): seq<Update> {
    if log == [] then [] else Replay(log[..|log| - 1]) + log[|log| - 1].updates
  }

  function End(log: seq<Record>, n: nat): nat
    requires n <= |log|
  {
    if n == 0 then 0 else log[n - 1].start + log[n - 1].count
  }

  lemma {:induction false} NothingToWrite(ws: seq<Writer>)
    requires forall i | 0 <= i < |ws| :: ws[i].batch.None?
    ensures AllUpdates(ws) == []
  {
    if ws != [] {
      NothingToWrite(ws[..|ws| - 1]);
    }
  }

  /** Calls that no record covers have no batch. */
  lemma {:induction false} Gap(s: State, n: nat, to: nat)
    requires LogOk(s) && Logged(s) <= |s.arrivals| && n <= |s.log| && End(s.log, n) <= to <= Logged(s)
    requires n < |s.log| ==> to <= s.log[n].start
    ensures AllUpdates(s.arrivals[..to]) == AllUpdates(s.arrivals[..End(s.log, n)])
  {
    hide AllUpdates, RecordOk;
    var from := End(s.log, n);
    var gap := s.arrivals[from..to];
    forall i | 0 <= i < |gap| ensures gap[i].batch.None? {
      if gap[i].batch.Some? {
        Uncovered(s, n, from + i);
      }
    }
    NothingToWrite(gap);
    assert s.arrivals[..to] == s.arrivals[..from] + gap;
    AllUpdatesAppend(s.arrivals[..from], gap);
    assert AllUpdates(s.arrivals[..from]) + [] == AllUpdates(s.arrivals[..from]);
  }

  lemma {:induction false} Uncovered(s: State, n: nat, k: nat)
    requires LogOk(s) && n <= |s.log| && End(s.log, n) <= k < |s.arrivals| && k < Logged(s)
    requires n < |s.log| ==> k < s.log[n].start
    ensures s.arrivals[k].batch.None?
  {
    hide RecordOk;
    if s.arrivals[k].batch.Some? {
      assert Covered(s, k);
      var i: nat :| i < |s.log| && s.log[i].start <= k < s.log[i].start + s.log[i].count;
      if n < i {
        RecordsApart(s, n, i);
      }
    }
  }

  lemma {:induction false} ReplayPrefix(s: State, n: nat)
    requires LogOk(s) && Logged(s) <= |s.arrivals| && n <= |s.log|
    ensures End(s.log, n) <= Logged(s) && Replay(s.log[..n]) == AllUpdates(s.arrivals[..End(s.log, n)])
  {
    hide AllUpdates;
    if n == 0 {
      NothingToWrite(s.arrivals[..0]);
    } else {
      ReplayPrefix(s, n - 1);
      var r := s.log[n - 1];
      assert RecordOk(s, r);
      if n >= 2 {
        RecordsApart(s, n - 2, n - 1);
      }
      Gap(s, n - 1, r.start);
      assert s.log[..n][..n - 1] == s.log[..n - 1];
      assert s.arrivals[..r.start + r.count] == s.arrivals[..r.start] + s.arrivals[r.start..r.start + r.count];
      AllUpdatesAppend(s.arrivals[..r.start], s.arrivals[r.start..r.start + r.count]);
    }
  }

  /** Replaying the log gives every update of every call that has been logged, once and in order. */
  lemma {:induction false} ReplayIsHistory(run: seq<State>, i: nat)
    requires IsRun(run) && i < |run|
    ensures var s := run[i];
      s.returned <= Logged(s) <= |s.arrivals| && Replay(s.log) == AllUpdates(s.arrivals[..Logged(s)])
  {
    hide IsRun, AllUpdates, LogOk;
    RunKeepsInv(run, i);
    var s := run[i];
    QueuedBound(s);
    ReplayPrefix(s, |s.log|);
    assert s.log[..|s.log|] == s.log;
    Gap(s, |s.log|, Logged(s));
  }
}
