/** Reads answer for the plain write history in every run, and the one place where they may not. */
module LsmSafety {
  import opened Basics
  import opened InternalKeys
  import opened Versions
  import opened Inputs
  import opened Compactions
  import opened Edits
  import opened Lsm
  import opened LsmReads
  import opened LsmSteps
  import opened LsmLevels

  lemma {:induction false} SevenLevels(levels: Levels)
    requires VersionOk(levels)
    ensures |levels| == NUM_LEVELS
  {
  }

  /** What the files satisfy in every reachable state. */
  lemma {:induction false} FilesOfInv(a: Db)
    requires Inv(a)
    ensures VersionOk(a.levels) && UniqueNumbers(a.levels) && NumbersBelow(a.levels, a.nextFile)
    ensures Unambiguous(Live(a)) && Unambiguous(AllEntries(a.levels))
  {
    hide VersionOk, UniqueNumbers, NumbersBelow, AllReadsRight, PendingInMem;
    FromHistoryUnambiguous(a.history, Live(a));
    assert AllEntries(a.levels) <= Live(a);
  }

  /** New levels with the same entries, or a step that leaves reads right, keep Inv. */
  lemma {:induction false} RelevelKeeps(a: Db, b: Db)
    requires Inv(a) && VersionOk(b.levels) && UniqueNumbers(b.levels) && NumbersBelow(b.levels, b.nextFile)
    requires b == a.(levels := b.levels, floor := b.floor, nextFile := b.nextFile)
    requires AllEntries(b.levels) <= AllEntries(a.levels)
    requires a.floor <= b.floor <= b.published && forall i | 0 <= i < |b.snapshots| :: b.floor <= b.snapshots[i]
    requires AllReadsRight(Live(b), b.history, b.floor, b.published)
    ensures Inv(b)
  {
    hide VersionOk, UniqueNumbers, NumbersBelow, AllReadsRight;
    assert Live(b) <= Live(a);
  }

  lemma {:induction false} FlushedFiles(a: Db, b: Db, level: nat, file: File)
    requires Inv(a) && FlushStep(a, b, level, file) && a.imm.value != {}
    ensures AllEntries(b.levels) == AllEntries(a.levels) + ImmEntries(a)
    ensures VersionOk(b.levels) && UniqueNumbers(b.levels) && NumbersBelow(b.levels, b.nextFile)
  {
    hide VersionOk, UniqueNumbers, NumbersBelow, AllReadsRight, PendingInMem, FromHistory, NewerThan, AddsFile, Saved, ClearThrough, AllEntries, LevelEntries, Unambiguous, Live;
    FilesOfInv(a);
    SevenLevels(a.levels);
    SavedAddsFile(a.levels, b.levels, level, file);
    FlushedEntries(a.levels, b.levels, level, file);
    FlushedVersion(a.levels, b.levels, level, file);
    FlushedNumbers(a.levels, b.levels, level, file);
  }

  lemma {:induction false} FlushKeeps(a: Db, b: Db, level: nat, file: File)
    requires Inv(a) && FlushStep(a, b, level, file)
    ensures Inv(b)
  {
    hide VersionOk, UniqueNumbers, NumbersBelow, AllReadsRight, FromHistory, Saved, ClearThrough, AllEntries;
    if a.imm.value != {} {
      FlushedFiles(a, b, level, file);
    }
    assert ImmEntries(b) + AllEntries(b.levels) == ImmEntries(a) + AllEntries(a.levels);
    assert Live(b) == Live(a);
    if a.imm.value == {} {
      FlushedNothing(a, b);
    }
  }

  lemma {:induction false} FlushedNothing(a: Db, b: Db)
    requires Inv(a) && b.levels == a.levels && b.nextFile == a.nextFile + 1
    ensures VersionOk(b.levels) && UniqueNumbers(b.levels) && NumbersBelow(b.levels, b.nextFile)
  {
    hide VersionOk, UniqueNumbers, AllReadsRight, PendingInMem, FromHistory;
  }

  lemma {:induction false} FlushedNumbers(from: Levels, to: Levels, level: nat, file: File)
    requires AddsFile(from, to, level, file) && UniqueNumbers(from) && NumbersBelow(from, file.number)
    ensures UniqueNumbers(to) && NumbersBelow(to, file.number + 1)
  {
    forall l, f | 0 <= l < |to| && f in to[l]
      ensures (f == file && l == level) || (f in from[l] && f.number < file.number)
    {
    }
  }

  lemma {:induction false} InputsAreIn(levels: Levels, level: nat, in0: seq<File>, in1: seq<File>)
    requires CompactionInputs(levels, level, in0, in1)
    ensures InputsIn(levels, level, in0, in1)
  {
    var smallest, largest :| IsRange(in0, smallest, largest)
                          && in1 == Overlapping(levels[level + 1], Some(smallest.user), Some(largest.user));
  }

  /** Deleting by number removes exactly the inputs. */
  lemma {:induction false} SavedRewrites(from: Levels, to: Levels, level: nat, in0: seq<File>, in1: seq<File>, outs: seq<File>, added: seq<(nat, File)>)
    requires InputsIn(from, level, in0, in1) && UniqueNumbers(from)
    requires Saved(from, Edit(Deletions(level, in0, in1), added), to)
    requires forall m: nat, f: File :: (m, f) in added <==> m == level + 1 && f in outs
    ensures Rewritten(from, to, level, in0, in1, outs)
  {
    var edit := Edit(Deletions(level, in0, in1), added);
    forall m | 0 <= m < |to|
      ensures SortedBySmallest(to[m])
    {
      assert LevelSaved(from[m], edit, m, to[m]);
    }
    forall m, f | 0 <= m < |to|
      ensures f in to[m] <==> Belongs(from, level, in0, in1, outs, m, f)
    {
      assert LevelSaved(from[m], edit, m, to[m]);
      if f in from[m] {
        DeletedExactly(from, level, in0, in1, m, f);
      }
    }
  }

  lemma {:induction false} DeletedExactly(levels: Levels, level: nat, in0: seq<File>, in1: seq<File>, m: nat, f: File)
    requires InputsIn(levels, level, in0, in1) && UniqueNumbers(levels) && m < |levels| && f in levels[m]
    ensures (m, f.number) in Deletions(level, in0, in1) <==> (m == level && f in in0) || (m == level + 1 && f in in1)
  {
    if m == level && (m, f.number) in Deletions(level, in0, in1) {
      var g :| g in in0 && g.number == f.number;
      assert g in levels[level];
    }
    if m == level + 1 && (m, f.number) in Deletions(level, in0, in1) {
      var g :| g in in1 && g.number == f.number;
      assert g in levels[level + 1];
    }
  }

  lemma {:induction false} MovedFiles(a: Db, b: Db, level: nat, file: File)
    requires Inv(a) && MoveStep(a, b, level, file)
    ensures AllEntries(b.levels) == AllEntries(a.levels)
    ensures VersionOk(b.levels) && UniqueNumbers(b.levels) && NumbersBelow(b.levels, b.nextFile)
  {
    hide VersionOk, UniqueNumbers, NumbersBelow, Inv, Saved, Rewritten, CompactionInputs, Unambiguous, Staying;
    FilesOfInv(a);
    InputsAreIn(a.levels, level, [file], []);
    assert file in [file];
    assert Deletions(level, [file], []) == {(level, file.number)};
    SavedRewrites(a.levels, b.levels, level, [file], [], [file], [(level + 1, file)]);
    MovedFileAlone(a.levels, level, file);
    RewrittenVersion(a.levels, b.levels, level, [file], [], [file]);
    RewrittenEntries(a.levels, b.levels, level, [file], [], [file]);
    StayingPlusInputs(a.levels, level, [file], []);
    MovedNumbers(a.levels, b.levels, level, file, a.nextFile);
  }

  lemma {:induction false} MovedFileAlone(levels: Levels, level: nat, file: File)
    requires VersionOk(levels) && level < |levels| && file in levels[level]
    ensures ValidFiles([file]) && Ordered([file])
    ensures LevelEntries([file]) == InputEntries([file], [])
  {
    ValidLevel(levels, level);
    ValidSubset(levels[level], [file]);
    ValidSpans([file]);
  }

  lemma {:induction false} MoveKeeps(a: Db, b: Db, level: nat, file: File)
    requires Inv(a) && MoveStep(a, b, level, file)
    ensures Inv(b)
  {
    hide VersionOk, UniqueNumbers, NumbersBelow, AllReadsRight, PendingInMem, FromHistory, Saved, CompactionInputs;
    MovedFiles(a, b, level, file);
    assert Live(b) == Live(a) && ImmEntries(b) == ImmEntries(a);
    RelevelKeeps(a, b);
  }

  lemma {:induction false} MovedNumbers(from: Levels, to: Levels, level: nat, file: File, n: nat)
    requires Rewritten(from, to, level, [file], [], [file]) && file in from[level]
    requires UniqueNumbers(from) && NumbersBelow(from, n)
    ensures UniqueNumbers(to) && NumbersBelow(to, n)
  {
    forall l, f | 0 <= l < |to| && f in to[l]
      ensures (f == file && l == level + 1) || (f != file && f in from[l])
      ensures f.number < n
    {
      assert Belongs(from, level, [file], [], [file], l, f);
    }
  }

  // ---- Compaction ----

  /** Everything a compaction leaves untouched. */
  ghost function Rest(a: Db, level: nat, in0: seq<File>, in1: seq<File>): set<Entry> {
    a.mem + ImmEntries(a) + Staying(a.levels, level, in0, in1)
  }

  lemma {:induction false} OutputsAreInputs(a: Db, level: nat, in0: seq<File>, in1: seq<File>, outs: seq<File>)
    requires OutputFiles(a, level, in0, in1, outs)
    ensures LevelEntries(outs) <= InputEntries(in0, in1)
  {
  }

  /** All but the reads: the compaction keeps the files layered. */
  lemma {:induction false} CompactLayers(a: Db, b: Db, level: nat, in0: seq<File>, in1: seq<File>, outs: seq<File>)
    requires Inv(a) && CompactAsChosen(a, b, level, in0, in1, outs)
    ensures VersionOk(b.levels)
    ensures Rewritten(a.levels, b.levels, level, in0, in1, outs)
    ensures AllEntries(b.levels) == Staying(a.levels, level, in0, in1) + LevelEntries(outs)
    ensures AllEntries(b.levels) <= AllEntries(a.levels)
  {
    hide VersionOk, UniqueNumbers, NumbersBelow, Inv, Saved, Rewritten, CompactionInputs, Unambiguous, Staying, Kept;
    FilesOfInv(a);
    InputsAreIn(a.levels, level, in0, in1);
    SavedRewrites(a.levels, b.levels, level, in0, in1, outs, Additions(level + 1, outs));
    OutputsAreInputs(a, level, in0, in1, outs);
    RewrittenVersion(a.levels, b.levels, level, in0, in1, outs);
    RewrittenEntries(a.levels, b.levels, level, in0, in1, outs);
    StayingPlusInputs(a.levels, level, in0, in1);
  }

  lemma {:induction false} CompactedNumbers(from: Levels, to: Levels, level: nat, in0: seq<File>, in1: seq<File>, outs: seq<File>, n: nat)
    requires Rewritten(from, to, level, in0, in1, outs) && UniqueNumbers(from) && NumbersBelow(from, n)
    requires forall i | 0 <= i < |outs| :: outs[i].number == n + i
    ensures UniqueNumbers(to) && NumbersBelow(to, n + |outs|)
  {
    hide InputsIn, Ordered, LevelEntries;
    forall l, f | 0 <= l < |to| && f in to[l]
      ensures (f in from[l] && f.number < n) || (l == level + 1 && n <= f.number < n + |outs| && f == outs[f.number - n])
    {
      assert Belongs(from, level, in0, in1, outs, l, f);
      if f !in from[l] {
        var i :| 0 <= i < |outs| && outs[i] == f;
      }
    }
  }

  /** r stays in place; t is an input entry of the same key. */
  lemma {:induction false} RestAgainstInput(a: Db, level: nat, in0: seq<File>, in1: seq<File>, t: Entry, r: Entry)
    requires Inv(a) && CompactionInputs(a.levels, level, in0, in1)
    requires t in InputEntries(in0, in1) && r in Rest(a, level, in0, in1) && t.user == r.user
    ensures t != r
    ensures r.seqno < t.seqno && BaseLevel(a.levels, level, t.user) ==> r in Beside(a, level, in1)
  {
    hide Inv, VersionOk, CompactionInputs, Unambiguous, LeavesNewer, AllEntries, InputEntries, InputsIn, BaseLevel, LevelEntries;
    InputsAreIn(a.levels, level, in0, in1);
    StayingPlusInputs(a.levels, level, in0, in1);
    assert t in AllEntries(a.levels);
    FilesOfInv(a);
    if r in a.mem || r in ImmEntries(a) {
      MemoryIsNewer(a, r, t);
    } else {
      LowerIsApart(a, level, in0, in1);
      var l, g :| 0 <= l < |a.levels| && g in a.levels[l] && !(l == level && g in in0) && !(l == level + 1 && g in in1) && r in g.entries;
      StayingEntry(a.levels, level, in0, in1, l, g, t, r);
      if l >= level + 2 {
        NotBase(a.levels, level, l, g, r);
      }
    }
  }

  lemma {:induction false} NotBase(levels: Levels, level: nat, l: nat, g: File, r: Entry)
    requires VersionOk(levels) && level + 2 <= l < |levels| && g in levels[l] && r in g.entries
    ensures !BaseLevel(levels, level, r.user)
  {
    ValidLevel(levels, l);
    FileKeyRange(g, r);
  }

  lemma {:induction false} MemoryIsNewer(a: Db, r: Entry, t: Entry)
    requires Inv(a) && (r in a.mem || r in ImmEntries(a)) && t in AllEntries(a.levels) && r.user == t.user
    ensures r.seqno > t.seqno
  {
    hide VersionOk, UniqueNumbers, NumbersBelow, AllReadsRight, PendingInMem, FromHistory;
  }

  lemma {:induction false} LowerIsApart(a: Db, level: nat, in0: seq<File>, in1: seq<File>)
    requires CompactionInputs(a.levels, level, in0, in1)
    ensures level + 1 < |a.levels| && LeavesNewer(a.levels[level], in0)
  {
  }

  lemma {:induction false} RestApart(a: Db, level: nat, in0: seq<File>, in1: seq<File>)
    requires Inv(a) && CompactionInputs(a.levels, level, in0, in1)
    ensures Rest(a, level, in0, in1) !! InputEntries(in0, in1)
    ensures forall t, r | t in InputEntries(in0, in1) && r in Rest(a, level, in0, in1) && t.user == r.user && r.seqno < t.seqno
                       && BaseLevel(a.levels, level, t.user) :: r in Beside(a, level, in1)
  {
    hide Inv, CompactionInputs, BaseLevel, Rest, InputEntries, Beside;
    LowerIsApart(a, level, in0, in1);
    var rest, E := Rest(a, level, in0, in1), InputEntries(in0, in1);
    forall t, r | t in E && r in rest && t.user == r.user
      ensures t != r
      ensures r.seqno < t.seqno && BaseLevel(a.levels, level, t.user) ==> r in Beside(a, level, in1)
    {
      RestAgainstInput(a, level, in0, in1, t, r);
    }
  }

  lemma {:induction false} CompactRewrites(a: Db, b: Db, level: nat, in0: seq<File>, in1: seq<File>, outs: seq<File>)
    requires Inv(a) && CompactAsChosen(a, b, level, in0, in1, outs)
    ensures Rewrites(Rest(a, level, in0, in1), a.levels, level, InputEntries(in0, in1), Beside(a, level, in1), SmallestSnapshot(a), Live(b))
    ensures Live(a) == Rest(a, level, in0, in1) + InputEntries(in0, in1)
    ensures Unambiguous(Live(a))
  {
    hide VersionOk, Inv, Kept, LeavesNewer, CompactionInputs, Saved, Rewritten, BaseLevel, Unambiguous, AllEntries, LevelEntries, InputEntries, InputsIn;
    var rest, E := Rest(a, level, in0, in1), InputEntries(in0, in1);
    CompactLayers(a, b, level, in0, in1, outs);
    InputsAreIn(a.levels, level, in0, in1);
    StayingPlusInputs(a.levels, level, in0, in1);
    FilesOfInv(a);
    assert Live(b) == rest + LevelEntries(outs);
    BesideStays(a, level, in0, in1);
    RestApart(a, level, in0, in1);
  }

  lemma {:induction false} BesideStays(a: Db, level: nat, in0: seq<File>, in1: seq<File>)
    requires level + 1 < |a.levels|
    ensures Beside(a, level, in1) <= Rest(a, level, in0, in1)
  {
  }

  /** A check on file ranges that rules out exposing anything: no file left at the output level
      starts with the last user key of an input file. */
  lemma {:induction false} ClosedNeverExposes(a: Db, level: nat, in0: seq<File>, in1: seq<File>)
    requires Inv(a) && CompactionInputs(a.levels, level, in0, in1) && LeavesNewer(a.levels[level + 1], in1)
    ensures Harmless(a, level, in0, in1)
  {
    forall t, x | Exposes(Live(a), a.levels, level, InputEntries(in0, in1), Beside(a, level, in1), SmallestSnapshot(a), t, x)
      ensures false
    {
      var g :| g in a.levels[level + 1] && g !in in1 && x in g.entries;
      LevelEntry(a.levels, level + 1, g, x);
      BesideIsNewer(a, level, in0, in1, t, g, x);
    }
  }

  lemma {:induction false} BesideIsNewer(a: Db, level: nat, in0: seq<File>, in1: seq<File>, t: Entry, g: File, x: Entry)
    requires Inv(a) && CompactionInputs(a.levels, level, in0, in1) && LeavesNewer(a.levels[level + 1], in1)
    requires t in InputEntries(in0, in1) && g in a.levels[level + 1] && g !in in1 && x in g.entries && x.user == t.user
    ensures x.seqno > t.seqno
  {
    hide Inv, VersionOk, Unambiguous, LeavesNewer, AllEntries;
    var next := a.levels[level + 1];
    InputsAreIn(a.levels, level, in0, in1);
    FilesOfInv(a);
    UnambiguousLevel(a.levels, level + 1);
    ValidLevel(a.levels, level + 1);
    ValidLevel(a.levels, level);
    if t in LevelEntries(in1) {
      var f :| f in in1 && t in f.entries;
      LeftBehindIsNewer(next, in1, f, g, t, x);
    } else {
      ValidSubset(a.levels[level], in0);
      UpperUserMeetsFile(next, in0, in1, t, g, x);
    }
  }

  /** A file of the next level that shares a user key with in0 is among the inputs. */
  lemma {:induction false} UpperUserMeetsFile(next: seq<File>, in0: seq<File>, in1: seq<File>, t: Entry, g: File, x: Entry)
    requires ValidFiles(next) && ValidFiles(in0) && CoversNextLevel(next, in0, in1)
    requires t in LevelEntries(in0) && g in next && x in g.entries && x.user == t.user
    ensures g in in1
  {
    var smallest, largest :| IsRange(in0, smallest, largest) && in1 == Overlapping(next, Some(smallest.user), Some(largest.user));
    var f :| f in in0 && t in f.entries;
    FileKeyRange(f, t);
    FileKeyRange(g, x);
  }

  lemma {:induction false} ReadsOfInv(a: Db)
    requires Inv(a)
    ensures SmallestSnapshot(a) <= a.published <= |a.history| < MAX_SEQUENCE
    ensures AllReadsRight(Live(a), a.history, SmallestSnapshot(a), a.published)
  {
    hide VersionOk, ReadsRight;
  }

  lemma {:induction false} InputsOf(a: Db, b: Db, level: nat, in0: seq<File>, in1: seq<File>, outs: seq<File>)
    requires CompactAsChosen(a, b, level, in0, in1, outs)
    ensures level + 1 < |a.levels| == NUM_LEVELS && b.history == a.history
  {
  }

  /**
   * A compaction, as the code chooses its inputs, keeps every read from its smallest snapshot on
   * right if and only if it discards no tombstone that hides a value left at the output level.
   */
  lemma {:induction false} CompactionExact(a: Db, b: Db, level: nat, in0: seq<File>, in1: seq<File>, outs: seq<File>)
    requires Inv(a) && CompactAsChosen(a, b, level, in0, in1, outs)
    ensures AllReadsRight(Live(b), a.history, SmallestSnapshot(a), a.published) <==> Harmless(a, level, in0, in1)
  {
    hide Inv, VersionOk, Kept, CompactAsChosen, Rewrites, Exposes, ReadsRight, Unambiguous;
    assert level + 1 < |a.levels| by {
      InputsOf(a, b, level, in0, in1, outs);
    }
    var rest, E := Rest(a, level, in0, in1), InputEntries(in0, in1);
    var beside, smallest := Beside(a, level, in1), SmallestSnapshot(a);
    CompactRewrites(a, b, level, in0, in1, outs);
    ReadsOfInv(a);
    if NeverExposes(Live(a), a.levels, level, E, beside, smallest) {
      forall user, s | smallest <= s <= a.published
        ensures ReadsRight(Live(b), a.history, user, s)
      {
        assert ReadsRight(Live(a), a.history, user, s);
        RewriteKeepsRead(a.history, rest, a.levels, level, E, beside, smallest, Live(b), user, s);
      }
    } else {
      var t, x :| Exposes(Live(a), a.levels, level, E, beside, smallest, t, x);
      assert ReadsRight(Live(a), a.history, t.user, smallest);
      ExposedValueIsRead(a.history, rest, a.levels, level, E, beside, smallest, Live(b), t, x);
    }
  }

  lemma {:induction false} CompactedFiles(a: Db, b: Db, level: nat, in0: seq<File>, in1: seq<File>, outs: seq<File>)
    requires Inv(a) && CompactAsChosen(a, b, level, in0, in1, outs)
    ensures VersionOk(b.levels) && UniqueNumbers(b.levels) && NumbersBelow(b.levels, b.nextFile)
    ensures AllEntries(b.levels) <= AllEntries(a.levels)
  {
    hide Inv, VersionOk, UniqueNumbers, NumbersBelow, Saved, CompactionInputs, Kept, Rewritten, Staying, Live, AllEntries, LevelEntries;
    CompactLayers(a, b, level, in0, in1, outs);
    FilesOfInv(a);
    CompactedNumbers(a.levels, b.levels, level, in0, in1, outs, a.nextFile);
  }

  lemma {:induction false} CompactKeeps(a: Db, b: Db, level: nat, in0: seq<File>, in1: seq<File>, outs: seq<File>)
    requires Inv(a) && CompactStep(a, b, level, in0, in1, outs)
    ensures Inv(b)
  {
    hide VersionOk, UniqueNumbers, NumbersBelow, AllReadsRight, PendingInMem, FromHistory, Saved, CompactionInputs, OutputFiles,
      Harmless, Layered, Live, AllEntries, InputEntries, Beside;
    CompactedFiles(a, b, level, in0, in1, outs);
    CompactionExact(a, b, level, in0, in1, outs);
    RelevelKeeps(a, b);
  }

  // ---- Runs ----

  lemma {:induction false} NextKeeps(a: Db, b: Db)
    requires Inv(a) && Next(a, b)
    ensures Inv(b)
  {
    if w :| InsertStep(a, b, w) {
      InsertKeeps(a, b, w);
    } else if PublishStep(a, b) {
      PublishKeeps(a, b);
    } else if SwitchStep(a, b) {
      SwitchKeeps(a, b);
    } else if level, file :| FlushStep(a, b, level, file) {
      FlushKeeps(a, b, level, file);
    } else if level, file :| MoveStep(a, b, level, file) {
      MoveKeeps(a, b, level, file);
    } else if level, in0, in1, outs :| CompactStep(a, b, level, in0, in1, outs) {
      CompactKeeps(a, b, level, in0, in1, outs);
    } else if SnapshotStep(a, b) {
      SnapshotKeeps(a, b);
    } else {
      var i :| ReleaseStep(a, b, i);
      ReleaseKeeps(a, b, i);
    }
  }

  ghost predicate Run(states: seq<Db>) {
    && |states| > 0 && Init(states[0])
    && forall i | 0 <= i < |states| - 1 :: Next(states[i], states[i + 1])
  }

  lemma {:induction false} EmptyLevelsOk(levels: Levels)
    requires levels == [[], [], [], [], [], [], []]
    ensures VersionOk(levels) && AllEntries(levels) == {}
  {
    assert forall l | 0 <= l < 7 :: levels[l] == [] && LevelEntries(levels[l]) == {};
  }

  lemma {:induction false} InitHasInv(db: Db)
    requires Init(db)
    ensures Inv(db)
  {
    hide VersionOk;
    EmptyLevelsOk(db.levels);
    assert Live(db) == {};
  }

  lemma {:induction false} RunKeepsInv(states: seq<Db>, i: nat)
    requires Run(states) && i < |states|
    ensures Inv(states[i])
  {
    hide Inv, Next, Init;
    if i == 0 {
      InitHasInv(states[0]);
    } else {
      RunKeepsInv(states, i - 1);
      NextKeeps(states[i - 1], states[i]);
    }
  }

  ghost predicate Readable(db: Db, s: nat) {
    s == db.published || s in db.snapshots
  }

  /** In every run, a read at LastSequence or at any live snapshot returns what the plain write
      history holds there. */
  lemma {:induction false} RunsReadHistory(states: seq<Db>, i: nat, user: UserKey, s: nat, p: Probe)
    requires Run(states) && i < |states|
    requires Readable(states[i], s) && DbGet(states[i], user, s, p)
    ensures s <= |states[i].history|
    ensures ViewOf(p) == HistoryGet(states[i].history, user, s)
  {
    RunKeepsInv(states, i);
    GetMatchesHistory(states[i], user, s, p);
  }

  lemma {:induction false} HistoryGrows(states: seq<Db>, i: nat, j: nat)
    requires Run(states) && i <= j < |states|
    ensures states[i].history <= states[j].history
  {
    if i < j {
      HistoryGrows(states, i, j - 1);
      assert Next(states[j - 1], states[j]);
    }
  }

  /** A snapshot keeps giving the same answer for as long as it is held. */
  lemma {:induction false} SnapshotsAreStable(states: seq<Db>, i: nat, j: nat, user: UserKey, s: nat, p: Probe, q: Probe)
    requires Run(states) && i <= j < |states|
    requires Readable(states[i], s) && Readable(states[j], s)
    requires DbGet(states[i], user, s, p) && DbGet(states[j], user, s, q)
    ensures ViewOf(p) == ViewOf(q)
  {
    RunsReadHistory(states, i, user, s, p);
    RunsReadHistory(states, j, user, s, q);
    HistoryGrows(states, i, j);
    var older, newer := states[i].history, states[j].history;
    assert newer == older + newer[|older|..];
    HistoryGetPrefix(older, newer[|older|..], user, s);
  }
}
