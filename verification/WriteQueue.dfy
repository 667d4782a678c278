/**
 * Grouped writes (DBImpl::Write and BuildBatchGroup in db/db_impl.cc; db/write_batch.cc). Writers
 * queue up; the one at the front writes for those behind it while the mutex is released.
 */
module WriteQueue {
  import opened Basics
  import opened InternalKeys

  /** One Put or Delete of a batch. */
  datatype Update = Update(user: UserKey, op: Op)

  /** The updates of a batch and the size of its encoding. */
  datatype Batch = Batch(updates: seq<Update>, bytes: nat)

  /** A call of Write; without a batch it only asks for room. */
  datatype Writer = Writer(batch: Option<Batch>, sync: bool)

  function UpdatesOf(w: Writer): seq<Update> {
    if w.batch.Some? then w.batch.value.updates else []
  }

  function AllUpdates(ws: seq<Writer>): seq<Update> {
    if ws == [] then [] else AllUpdates(ws[..|ws| - 1]) + UpdatesOf(ws[|ws| - 1])
  }

  lemma {:induction false} AllUpdatesAppend(a: seq<Writer>, b: seq<Writer>)
    ensures AllUpdates(a + b) == AllUpdates(a) + AllUpdates(b)
  {
    if b == [] {
      assert a + b == a;
    } else {
      var n := |b| - 1;
      hide UpdatesOf;
      AllUpdatesAppend(a, b[..n]);
      assert (a + b)[..|a + b| - 1] == a + b[..n];
      assert (a + b)[|a + b| - 1] == b[n];
    }
  }

  /** How far a group may grow: less if the write at its head is small. */
  function MaxSize(first: Batch): nat {
    if first.bytes <= 0x2_0000 then first.bytes + 0x2_0000 else 0x10_0000
  }

  function TotalBytes(ws: seq<Writer>): nat {
    if ws == [] then 0
    else TotalBytes(ws[..|ws| - 1]) + if ws[|ws| - 1].batch.Some? then ws[|ws| - 1].batch.value.bytes else 0
  }

  /** Whether writer i may join the group of the ones before it. */
  predicate Joins(ws: seq<Writer>, i: nat)
    requires i < |ws| && ws[0].batch.Some?
  {
    && (ws[i].sync ==> ws[0].sync)
    && (ws[i].batch.Some? ==> TotalBytes(ws[..i + 1]) <= MaxSize(ws[0].batch.value))
  }

  /** count is the size of the group at the head of ws: it ends at the first writer that may not join. */
  ghost predicate IsGroup(ws: seq<Writer>, count: nat) {
    && 0 < count <= |ws| && ws[0].batch.Some?
    && (forall i | 1 <= i < count :: Joins(ws, i))
    && (count < |ws| ==> !Joins(ws, count))
  }

  /** A group behind a first batch of at most 128 KB adds at most 128 KB to it. Behind a larger one it stops
      short of 1 MB, unless the first batch alone is larger than that. */
  lemma {:induction false} GroupBytes(ws: seq<Writer>, count: nat)
    requires IsGroup(ws, count)
    ensures var first := ws[0].batch.value.bytes;
      TotalBytes(ws[..count]) <= if first <= 131072 then first + 131072 else if first <= 1048576 then 1048576 else first
  {
    hide TotalBytes, MaxSize;
    SizeLimits(ws[0].batch.value);
    NoCalls();
    OneMore(ws, 0);
    for n := 1 to count
      invariant TotalBytes(ws[..n]) <= ws[0].batch.value.bytes || TotalBytes(ws[..n]) <= MaxSize(ws[0].batch.value)
    {
      OneMore(ws, n);
      assert Joins(ws, n);
    }
  }

  lemma {:induction false} SizeLimits(first: Batch)
    ensures MaxSize(first) == if first.bytes <= 131072 then first.bytes + 131072 else 1048576
  {
  }

  /** Who ends a group: a writer that wants a sync the first one does not do, or one whose batch is too much. */
  lemma {:induction false} GroupEnd(ws: seq<Writer>, count: nat)
    requires IsGroup(ws, count) && count < |ws|
    ensures var first, next := ws[0].batch.value.bytes, ws[count];
      || (next.sync && !ws[0].sync)
      || (next.batch.Some?
          && TotalBytes(ws[..count]) + next.batch.value.bytes > if first <= 131072 then first + 131072 else 1048576)
  {
    hide TotalBytes, MaxSize;
    SizeLimits(ws[0].batch.value);
    OneMore(ws, count);
  }

  /** BuildBatchGroup. */
  method BuildBatchGroup(ws: seq<Writer>) returns (count: nat, updates: seq<Update>)
    requires ws != [] && ws[0].batch.Some?
    ensures IsGroup(ws, count) && updates == AllUpdates(ws[..count])
    ensures forall i | 0 <= i < count :: ws[i].sync ==> ws[0].sync
    ensures var first := ws[0].batch.value.bytes;
      && TotalBytes(ws[..count]) <= (if first <= 131072 then first + 131072 else if first <= 1048576 then 1048576 else first)
      && (count < |ws| ==>
            || (ws[count].sync && !ws[0].sync)
            || (ws[count].batch.Some? && TotalBytes(ws[..count]) + ws[count].batch.value.bytes
                                         > if first <= 131072 then first + 131072 else 1048576))
  {
    hide AllUpdates, TotalBytes, MaxSize;
    var first := ws[0].batch.value;
    var size, maxSize := first.bytes, MaxSize(first);
    updates, count := first.updates, 1;
    NoCalls();
    OneMore(ws, 0);
    while count < |ws|
      invariant 1 <= count <= |ws| && size == TotalBytes(ws[..count]) && updates == AllUpdates(ws[..count])
      invariant forall i | 1 <= i < count :: Joins(ws, i)
      invariant forall i | 0 <= i < count :: ws[i].sync ==> ws[0].sync
    {
      var w := ws[count];
      OneMore(ws, count);
      if w.sync && !ws[0].sync {
        break;
      }
      if w.batch.Some? {
        size := size + w.batch.value.bytes;
        if size > maxSize {
          break;
        }
        updates := updates + w.batch.value.updates;
      }
      count := count + 1;
    }
    GroupBytes(ws, count);
    if count < |ws| {
      GroupEnd(ws, count);
    }
  }

  lemma {:induction false} NoCalls()
    ensures AllUpdates([]) == [] && TotalBytes([]) == 0
  {
  }

  lemma {:induction false} OneMore(ws: seq<Writer>, n: nat)
    requires n < |ws|
    ensures AllUpdates(ws[..n + 1]) == AllUpdates(ws[..n]) + UpdatesOf(ws[n])
    ensures TotalBytes(ws[..n + 1]) == TotalBytes(ws[..n]) + if ws[n].batch.Some? then ws[n].batch.value.bytes else 0
    ensures ws[..0] == []
  {
    assert ws[..n + 1][..n] == ws[..n];
  }

  lemma {:induction false} GroupUnique(ws: seq<Writer>, a: nat, b: nat)
    requires IsGroup(ws, a) && IsGroup(ws, b)
    ensures a == b
  {
  }

  /** A log record: the batch of the group of calls start..start + count, its first sequence number,
      and whether the log was synced before the group went on. */
  datatype Record = Record(start: nat, count: nat, first: nat, updates: seq<Update>, synced: bool)

  /** What the writer at the front is doing. */
  datatype Leader =
    | NoLeader
    | MakingRoom
    | Grouped(count: nat, updates: seq<Update>, logged: bool, applied: nat)

  /** arrivals is history: all calls of Write, in the order in which they queued up; the first
      `returned` of them are done. mem lists the entries added to memtables. */
  datatype State = State(
    arrivals: seq<Writer>,
    returned: nat,
    queue: seq<Writer>,
    leader: Leader,
    base: nat,
    lastSequence: nat,
    log: seq<Record>,
    mem: seq<Entry>)

  datatype Step = Join(w: Writer) | Lead | Build(count: nat) | Append | Sync | Apply | Publish

  /** A leader that asked for it syncs the log before it goes on. */
  predicate SyncedEnough(s: State) {
    s.queue != [] && s.log != [] && (s.queue[0].sync ==> s.log[|s.log| - 1].synced)
  }

  ghost predicate Enabled(s: State, step: Step) {
    match step
    case Join(w) => true
    case Lead => s.leader == NoLeader && s.queue != []
    case Build(count) =>
      s.leader == MakingRoom && s.queue != [] && if s.queue[0].batch.None? then count == 1 else IsGroup(s.queue, count)
    case Append => s.leader.Grouped? && !s.leader.logged
    case Sync =>
      s.leader.Grouped? && s.leader.logged && s.leader.applied == 0 && s.queue != [] && s.queue[0].sync && s.log != []
    case Apply =>
      && s.leader.Grouped? && s.leader.logged && s.leader.applied < |s.leader.updates| && SyncedEnough(s)
      && s.lastSequence + 1 + s.leader.applied <= MAX_SEQUENCE
    case Publish =>
      && s.leader.Grouped? && s.leader.logged && s.leader.applied == |s.leader.updates| && SyncedEnough(s)
      && s.leader.count <= |s.queue|
  }

  function Stamp(u: Update, s: Sequence): Entry {
    Entry(u.user, s, u.op)
  }

  ghost function Next(s: State, step: Step): State
    requires Enabled(s, step)
  {
    match step
    case Join(w) => s.(arrivals := s.arrivals + [w], queue := s.queue + [w])
    case Lead => s.(leader := MakingRoom)
    case Build(count) =>
      if s.queue[0].batch.None? then s.(queue := s.queue[1..], returned := s.returned + 1, leader := NoLeader)
      else s.(leader := Grouped(count, AllUpdates(s.queue[..count]), false, 0))
    case Append =>
      s.(leader := s.leader.(logged := true),
         log := s.log + [Record(s.returned, s.leader.count, s.lastSequence + 1, s.leader.updates, false)])
    case Sync => s.(log := s.log[|s.log| - 1 := s.log[|s.log| - 1].(synced := true)])
    case Apply =>
      s.(leader := s.leader.(applied := s.leader.applied + 1),
         mem := s.mem + [Stamp(s.leader.updates[s.leader.applied], s.lastSequence + 1 + s.leader.applied)])
    case Publish =>
      s.(lastSequence := s.lastSequence + |s.leader.updates|, queue := s.queue[s.leader.count..],
         returned := s.returned + s.leader.count, leader := NoLeader)
  }

  predicate Initial(s: State) {
    && s.arrivals == [] && s.returned == 0 && s.queue == [] && s.leader == NoLeader
    && s.lastSequence == s.base && s.log == [] && s.mem == []
  }

  ghost predicate IsRun(run: seq<State>) {
    && run != [] && Initial(run[0])
    && forall i | 0 < i < |run| :: Follows(run[i - 1], run[i])
  }

  ghost predicate Follows(s: State, t: State) {
    exists step :: Enabled(s, step) && t == Next(s, step)
  }

  /** How many calls the log covers. */
  function Logged(s: State): nat {
    s.returned + if s.leader.Grouped? && s.leader.logged then s.leader.count else 0
  }

  /** The entries that the first updates of all calls make, numbered from base + 1. */
  ghost predicate Numbered(mem: seq<Entry>, base: nat, updates: seq<Update>) {
    |mem| == |updates| && forall i | 0 <= i < |mem| ::
      mem[i].user == updates[i].user && mem[i].op == updates[i].op && mem[i].seqno == base + 1 + i
  }

  /** The queue is what has arrived and not returned. */
  ghost predicate Queued(s: State) {
    && s.returned <= |s.arrivals| && s.queue == s.arrivals[s.returned..]
    && (s.leader.MakingRoom? ==> s.queue != [])
    && (s.leader.Grouped? ==>
          && 0 < s.leader.count <= |s.queue| && s.leader.updates == AllUpdates(s.queue[..s.leader.count])
          && s.leader.applied <= |s.leader.updates| && (!s.leader.logged ==> s.leader.applied == 0)
          && (s.leader.logged ==> s.log != [])
          && forall i | 0 <= i < s.leader.count :: s.queue[i].sync ==> s.queue[0].sync)
  }

  /** Sequence numbers count the updates of the calls in order; the entries added are theirs. */
  ghost predicate Counted(s: State)
    requires s.returned <= |s.arrivals|
  {
    && s.lastSequence == s.base + |AllUpdates(s.arrivals[..s.returned])|
    && Numbered(s.mem, s.base, AllUpdates(s.arrivals[..s.returned]) + Partial(s))
  }

  /** The updates of the current group that are in the memtable already. */
  function Partial(s: State): seq<Update> {
    if s.leader.Grouped? && s.leader.applied <= |s.leader.updates| then s.leader.updates[..s.leader.applied] else []
  }

  /** A record holds the updates of its calls, numbered after those of all calls before. */
  ghost predicate RecordOk(s: State, r: Record) {
    && r.start + r.count <= |s.arrivals| && r.updates == AllUpdates(s.arrivals[r.start..r.start + r.count])
    && r.first == s.base + 1 + |AllUpdates(s.arrivals[..r.start])|
  }

  ghost predicate LogOk(s: State) {
    && (forall i | 0 <= i < |s.log| :: RecordOk(s, s.log[i]) && s.log[i].start + s.log[i].count <= Logged(s))
    && (forall i, j | 0 <= i < j < |s.log| :: s.log[i].start + s.log[i].count <= s.log[j].start)
    && (s.leader.Grouped? && s.leader.logged ==>
          s.log != [] && s.log[|s.log| - 1].start == s.returned && s.log[|s.log| - 1].count == s.leader.count)
    && (forall k: nat | k < Logged(s) && k < |s.arrivals| && s.arrivals[k].batch.Some? :: Covered(s, k))
  }

  /** Call k is in the log, and if it asked for it and is done, the log was synced. */
  ghost predicate Covered(s: State, k: nat)
    requires k < |s.arrivals|
  {
    exists i :: 0 <= i < |s.log| && s.log[i].start <= k < s.log[i].start + s.log[i].count
      && (k < s.returned && s.arrivals[k].sync ==> s.log[i].synced)
  }

  ghost predicate Inv(s: State) {
    Queued(s) && Counted(s) && LogOk(s)
  }
}
