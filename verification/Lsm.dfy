/**
 * The store as a state machine: memtable, immutable memtable, seven levels of table files and the
 * live snapshots, next to the plain history of writes it must answer for.
 */
module Lsm {
  import opened Basics
  import opened InternalKeys
  import opened Versions
  import opened Inputs
  import opened Compactions
  import opened Edits

  datatype Write = Write(user: UserKey, op: Op)

  /** history holds every logged write, the i-th with sequence number i + 1; the first `published`
      of them are visible (LastSequence). floor is the oldest snapshot any compaction has served. */
  datatype Db = Db(
    history: seq<Write>,
    published: nat,
    floor: nat,
    mem: set<Entry>,
    imm: Option<set<Entry>>,
    levels: Levels,
    snapshots: seq<nat>,
    nextFile: nat)

  datatype View = NotFound | Value(value: Value)

  function ViewOf(p: Probe): View {
    if p.Found? then Value(p.value) else NotFound
  }

  /** The plain answer: the last write to user among the first s. */
  function HistoryGet(history: seq<Write>, user: UserKey, s: nat): View
    requires s <= |history|
  {
    if s == 0 then NotFound
    else if history[s - 1].user == user then ViewOf(Outcome(history[s - 1].op))
    else HistoryGet(history, user, s - 1)
  }

  lemma {:induction false} HistoryGetPrefix(history: seq<Write>, more: seq<Write>, user: UserKey, s: nat)
    requires s <= |history|
    ensures HistoryGet(history + more, user, s) == HistoryGet(history, user, s)
  {
    if s > 0 {
      HistoryGetPrefix(history, more, user, s - 1);
    }
  }

  /** Write i is the last of the first s to user. */
  ghost predicate IsLastWrite(history: seq<Write>, user: UserKey, s: nat, i: int) {
    && 0 <= i < s <= |history| && history[i].user == user
    && forall j | i < j < s :: history[j].user != user
  }

  /** v is what the last of the first s writes to user says: its value if that is a Put, nothing if it is a Delete
      or if there is none. */
  ghost predicate LastWriteSays(history: seq<Write>, user: UserKey, s: nat, v: View)
    requires s <= |history|
  {
    || (v == NotFound && forall i | 0 <= i < s :: history[i].user != user)
    || exists i :: IsLastWrite(history, user, s, i) && v == if history[i].op.Put? then Value(history[i].op.value) else NotFound
  }

  lemma {:induction false} HistoryGetMeans(history: seq<Write>, user: UserKey, s: nat)
    requires s <= |history|
    ensures LastWriteSays(history, user, s, HistoryGet(history, user, s))
  {
    var i := HistoryGetFinds(history, user, s);
  }

  lemma {:induction false} HistoryGetFinds(history: seq<Write>, user: UserKey, s: nat) returns (i: int)
    requires s <= |history|
    ensures if i == -1 then HistoryGet(history, user, s) == NotFound && forall j | 0 <= j < s :: history[j].user != user
            else IsLastWrite(history, user, s, i)
                 && HistoryGet(history, user, s) == if history[i].op.Put? then Value(history[i].op.value) else NotFound
  {
    i := -1;
    if s > 0 {
      if history[s - 1].user == user {
        i := s - 1;
      } else {
        i := HistoryGetFinds(history, user, s - 1);
      }
    }
  }

  function EntryAt(history: seq<Write>, s: Sequence): Entry
    requires 0 < s <= |history|
  {
    Entry(history[s - 1].user, s, history[s - 1].op)
  }

  ghost function ImmEntries(db: Db): set<Entry> {
    if db.imm.Some? then db.imm.value else {}
  }

  ghost function Live(db: Db): set<Entry> {
    db.mem + (ImmEntries(db) + AllEntries(db.levels))
  }

  /** Every stored entry is one of the logged writes. */
  ghost predicate FromHistory(history: seq<Write>, E: set<Entry>) {
    forall e | e in E :: 0 < e.seqno <= |history| && e == EntryAt(history, e.seqno)
  }

  /** Reading E at snapshot s gives what the history says. */
  ghost predicate ReadsRight(E: set<Entry>, history: seq<Write>, user: UserKey, s: nat)
    requires s <= |history|
  {
    forall p :: Answers(E, user, s, p) ==> ViewOf(p) == HistoryGet(history, user, s)
  }

  ghost predicate AllReadsRight(E: set<Entry>, history: seq<Write>, lo: nat, hi: nat)
    requires hi <= |history|
  {
    forall user, s | lo <= s <= hi :: ReadsRight(E, history, user, s)
  }

  ghost predicate NumbersBelow(levels: Levels, n: nat) {
    forall l, f | 0 <= l < |levels| && f in levels[l] :: f.number < n
  }

  /** Sequence numbers only fall from mem to imm to the files, and inside the files from level to
      level and, at level 0, from larger file number to smaller. */
  ghost predicate Layered(db: Db) {
    && NewerThan(db.mem, ImmEntries(db) + AllEntries(db.levels))
    && NewerThan(ImmEntries(db), AllEntries(db.levels))
    && VersionOk(db.levels)
    && UniqueNumbers(db.levels)
    && NumbersBelow(db.levels, db.nextFile)
  }

  ghost predicate SnapshotsOk(db: Db) {
    && db.floor <= db.published <= |db.history| < MAX_SEQUENCE
    && (forall i | 0 <= i < |db.snapshots| :: db.floor <= db.snapshots[i] <= db.published)
    && (forall i, j | 0 <= i < j < |db.snapshots| :: db.snapshots[i] <= db.snapshots[j])
  }

  /** What is logged but not yet visible is still in the memtable. */
  ghost predicate PendingInMem(db: Db) {
    forall s | db.published < s <= |db.history| < MAX_SEQUENCE :: EntryAt(db.history, s) in db.mem
  }

  ghost predicate Inv(db: Db) {
    && SnapshotsOk(db)
    && PendingInMem(db)
    && FromHistory(db.history, Live(db))
    && Layered(db)
    && AllReadsRight(Live(db), db.history, db.floor, db.published)
  }

  ghost predicate Init(db: Db) {
    db == Db([], 0, 0, {}, None, [[], [], [], [], [], [], []], [], 1)
  }

  // ---- Steps ----

  /** One entry of the leader's batch goes into the memtable, not yet visible. */
  ghost predicate InsertStep(a: Db, b: Db, w: Write) {
    && |a.history| + 1 < MAX_SEQUENCE
    && b == a.(history := a.history + [w], mem := a.mem + {Entry(w.user, |a.history| + 1, w.op)})
  }

  /** SetLastSequence: the whole batch becomes visible at once. */
  ghost predicate PublishStep(a: Db, b: Db) {
    b == a.(published := |a.history|)
  }

  /** MakeRoomForWrite: the memtable becomes immutable. */
  ghost predicate SwitchStep(a: Db, b: Db) {
    && a.imm.None? && a.published == |a.history|
    && b == a.(imm := Some(a.mem), mem := {})
  }

  /** CompactMemTable: the immutable memtable becomes a file at the level picked for it. */
  ghost predicate FlushStep(a: Db, b: Db, level: nat, file: File) {
    && a.imm.Some? && level <= MAX_MEM_COMPACT_LEVEL
    && file.number == a.nextFile
    && b == a.(imm := None, levels := b.levels, nextFile := a.nextFile + 1)
    && if a.imm.value == {} then b.levels == a.levels
       else
         && file.Valid() && FileEntries(file) == a.imm.value
         && (level > 0 ==> ClearThrough(a.levels, level, file.smallest.user, file.largest.user))
         && Saved(a.levels, Edit({}, [(level, file)]), b.levels)
  }

  /** A file with nothing under it moves down without being rewritten. */
  ghost predicate MoveStep(a: Db, b: Db, level: nat, file: File) {
    && CompactionInputs(a.levels, level, [file], [])
    && b == a.(levels := b.levels)
    && Saved(a.levels, Edit({(level, file.number)}, [(level + 1, file)]), b.levels)
  }

  function SmallestSnapshot(db: Db): nat {
    if db.snapshots == [] then db.published else db.snapshots[0]
  }

  ghost function InputEntries(in0: seq<File>, in1: seq<File>): set<Entry> {
    LevelEntries(in0) + LevelEntries(in1)
  }

  function Deletions(level: nat, in0: seq<File>, in1: seq<File>): set<(nat, nat)> {
    (set f | f in in0 :: (level, f.number)) + (set f | f in in1 :: (level + 1, f.number))
  }

  ghost predicate OutputFiles(a: Db, level: nat, in0: seq<File>, in1: seq<File>, outs: seq<File>) {
    && ValidFiles(outs)
    && Ordered(outs)
    && (forall i | 0 <= i < |outs| :: outs[i].number == a.nextFile + i)
    && (forall e :: e in LevelEntries(outs) <==>
          Kept(a.levels, level, InputEntries(in0, in1), e, SmallestSnapshot(a)))
  }

  /** A compaction as the code performs it. */
  ghost predicate CompactAsChosen(a: Db, b: Db, level: nat, in0: seq<File>, in1: seq<File>, outs: seq<File>) {
    && CompactionInputs(a.levels, level, in0, in1)
    && OutputFiles(a, level, in0, in1, outs)
    && b == a.(levels := b.levels, floor := SmallestSnapshot(a), nextFile := a.nextFile + |outs|)
    && Saved(a.levels, Edit(Deletions(level, in0, in1), Additions(level + 1, outs)), b.levels)
  }

  /** The files of `level` that stay. */
  ghost function Remaining(files: seq<File>, chosen: seq<File>): set<Entry> {
    set f, e | f in files && f !in chosen && e in f.entries :: e
  }

  /** What stays at the output level. */
  ghost function Beside(a: Db, level: nat, in1: seq<File>): set<Entry>
    requires level + 1 < |a.levels|
  {
    Remaining(a.levels[level + 1], in1)
  }

  /** A compaction would expose an older value x of `user`: it discards the tombstone t that every
      reader from snapshot s on relies on, while x stays at the output level. */
  ghost predicate Exposes(live: set<Entry>, levels: Levels, level: nat, E: set<Entry>, beside: set<Entry>, s: nat, t: Entry, x: Entry) {
    && Newest(live, t.user, s, t) && t in E && t.op.Delete? && BaseLevel(levels, level, t.user)
    && Newest(beside, t.user, s, x) && x.op.Put?
  }

  ghost predicate NeverExposes(live: set<Entry>, levels: Levels, level: nat, E: set<Entry>, beside: set<Entry>, s: nat) {
    forall t, x :: !Exposes(live, levels, level, E, beside, s, t, x)
  }

  /** Compacting these inputs exposes nothing to any live reader. */
  ghost predicate Harmless(a: Db, level: nat, in0: seq<File>, in1: seq<File>)
    requires level + 1 < |a.levels|
  {
    NeverExposes(Live(a), a.levels, level, InputEntries(in0, in1), Beside(a, level, in1), SmallestSnapshot(a))
  }

  ghost predicate CompactStep(a: Db, b: Db, level: nat, in0: seq<File>, in1: seq<File>, outs: seq<File>) {
    && CompactAsChosen(a, b, level, in0, in1, outs)
    && Harmless(a, level, in0, in1)
  }

  ghost predicate SnapshotStep(a: Db, b: Db) {
    b == a.(snapshots := a.snapshots + [a.published])
  }

  ghost predicate ReleaseStep(a: Db, b: Db, i: nat) {
    i < |a.snapshots| && b == a.(snapshots := a.snapshots[..i] + a.snapshots[i + 1..])
  }

  ghost predicate Next(a: Db, b: Db) {
    || (exists w :: InsertStep(a, b, w))
    || PublishStep(a, b)
    || SwitchStep(a, b)
    || (exists level, file :: FlushStep(a, b, level, file))
    || (exists level, file :: MoveStep(a, b, level, file))
    || (exists level, in0, in1, outs :: CompactStep(a, b, level, in0, in1, outs))
    || SnapshotStep(a, b)
    || (exists i :: ReleaseStep(a, b, i))
  }

  // ---- Reads ----

  /** A read at snapshot s: memtable, then immutable memtable, then files. */
  ghost predicate DbGet(db: Db, user: UserKey, s: nat, p: Probe) {
    exists m, i, v ::
      && Answers(db.mem, user, s, m)
      && Answers(ImmEntries(db), user, s, i)
      && Answers(AllEntries(db.levels), user, s, v)
      && p == if !m.Absent? then m else if !i.Absent? then i else v
  }

  lemma {:induction false} GetReadsLive(db: Db, user: UserKey, s: nat, p: Probe)
    requires Layered(db) && DbGet(db, user, s, p)
    ensures Answers(Live(db), user, s, p)
  {
    var m, i, v :|
      && Answers(db.mem, user, s, m)
      && Answers(ImmEntries(db), user, s, i)
      && Answers(AllEntries(db.levels), user, s, v)
      && p == if !m.Absent? then m else if !i.Absent? then i else v;
    var below := if i.Absent? then v else i;
    AnswersUnion(ImmEntries(db), AllEntries(db.levels), user, s, i, v);
    AnswersUnion(db.mem, ImmEntries(db) + AllEntries(db.levels), user, s, m, below);
  }

  lemma {:induction false} GetMatchesHistory(db: Db, user: UserKey, s: nat, p: Probe)
    requires Inv(db) && db.floor <= s <= db.published && DbGet(db, user, s, p)
    ensures ViewOf(p) == HistoryGet(db.history, user, s)
  {
    GetReadsLive(db, user, s, p);
    assert ReadsRight(Live(db), db.history, user, s);
  }
}
