/**
 * Runs in which no snapshot is held while a compaction rewrites files. No user key is then ever cut in two
 * below level 0, so every compaction is harmless, and reads answer for the history without any further
 * condition.
 */
module LsmUnheld {
  import opened Basics
  import opened InternalKeys
  import opened Versions
  import opened Inputs
  import opened Compactions
  import opened Edits
  import opened Lsm
  import opened LsmSteps
  import opened LsmLevels
  import opened LsmSafety

  /** A step of the store, with compactions as the code performs them when no snapshot is held. */
  ghost predicate FreeStep(a: Db, b: Db) {
    || (exists w :: InsertStep(a, b, w))
    || PublishStep(a, b)
    || SwitchStep(a, b)
    || (exists level, file :: FlushStep(a, b, level, file))
    || (exists level, file :: MoveStep(a, b, level, file))
    || (exists level, in0, in1, outs :: CompactAsChosen(a, b, level, in0, in1, outs) && a.snapshots == [])
    || SnapshotStep(a, b)
    || (exists i :: ReleaseStep(a, b, i))
  }

  ghost predicate FreeRun(states: seq<Db>) {
    && |states| > 0 && Init(states[0])
    && forall i | 0 <= i < |states| - 1 :: FreeStep(states[i], states[i + 1])
  }

  /** f and g share no user key, nor does anything between. */
  predicate UserApart(f: File, g: File) {
    f.largest.user < g.smallest.user || g.largest.user < f.smallest.user
  }

  /** Below level 0 no user key is in two files of a level. */
  ghost predicate Uncut(levels: Levels) {
    forall l, f, g | 1 <= l < |levels| && f in levels[l] && g in levels[l] && f != g :: UserApart(f, g)
  }

  /** All that has left the memtable is visible. */
  ghost predicate OutIsVisible(db: Db) {
    forall e | e in ImmEntries(db) + AllEntries(db.levels) :: e.seqno <= db.published
  }

  ghost predicate Uncutting(db: Db) {
    Inv(db) && Uncut(db.levels) && OutIsVisible(db)
  }

  /** If no key is cut, every compaction is harmless. */
  lemma {:induction false} UncutIsHarmless(a: Db, level: nat, in0: seq<File>, in1: seq<File>)
    requires Inv(a) && Uncut(a.levels) && CompactionInputs(a.levels, level, in0, in1)
    ensures Harmless(a, level, in0, in1)
  {
    hide Inv, Harmless;
    InputsAreIn(a.levels, level, in0, in1);
    SpansBelow(a, level + 1);
    UncutLeavesNewer(a.levels[level + 1], in1);
    ClosedNeverExposes(a, level, in0, in1);
  }

  lemma {:induction false} SpansBelow(a: Db, l: nat)
    requires Inv(a) && l < |a.levels|
    ensures forall f | f in a.levels[l] :: f.Valid() && f.smallest.user <= f.largest.user
  {
    hide Inv, VersionOk;
    FilesOfInv(a);
    ValidLevel(a.levels, l);
    forall f | f in a.levels[l] ensures f.Valid() && f.smallest.user <= f.largest.user {
      ValidRange(f);
    }
  }

  lemma {:induction false} ValidRange(f: File)
    requires f.Valid()
    ensures f.smallest.user <= f.largest.user
    ensures forall e | e in f.entries :: f.smallest.user <= e.user <= f.largest.user
  {
  }

  lemma {:induction false} UncutLeavesNewer(files: seq<File>, chosen: seq<File>)
    requires forall f, g | f in files && g in files && f != g :: UserApart(f, g)
    requires forall f | f in chosen :: f in files
    ensures LeavesNewer(files, chosen)
  {
  }

  // ---- Each step keeps keys uncut ----

  lemma {:induction false} FlushUncut(a: Db, b: Db, level: nat, file: File)
    requires Uncutting(a) && FlushStep(a, b, level, file)
    ensures Uncut(b.levels)
  {
    hide Inv;
    if a.imm.value != {} {
      LevelsOf(a);
      SavedAddsFile(a.levels, b.levels, level, file);
      forall l, f, g | 1 <= l < |b.levels| && f in b.levels[l] && g in b.levels[l] && f != g ensures UserApart(f, g) {
        if l == level && f == file {
          assert g in a.levels[l] && !Overlaps(g, Some(file.smallest.user), Some(file.largest.user));
        } else if l == level && g == file {
          assert f in a.levels[l] && !Overlaps(f, Some(file.smallest.user), Some(file.largest.user));
        }
      }
    }
  }

  lemma {:induction false} LevelsOf(a: Db)
    requires Inv(a)
    ensures |a.levels| == NUM_LEVELS && UniqueNumbers(a.levels)
  {
    hide Inv, VersionOk;
    FilesOfInv(a);
    SevenLevels(a.levels);
  }

  lemma {:induction false} MoveUncut(a: Db, b: Db, level: nat, file: File)
    requires Uncutting(a) && MoveStep(a, b, level, file)
    ensures Uncut(b.levels)
  {
    hide Inv, LeavesNewer, CoversNextLevel, UniqueNumbers;
    MovedUnder(a.levels, level, file);
    LevelsOf(a);
    var edit := Edit({(level, file.number)}, [(level + 1, file)]);
    forall l, f, g | 1 <= l < |b.levels| && f in b.levels[l] && g in b.levels[l] && f != g ensures UserApart(f, g) {
      assert LevelSaved(a.levels[l], edit, l, b.levels[l]);
      assert f in a.levels[l] || (l == level + 1 && f == file);
      assert g in a.levels[l] || (l == level + 1 && g == file);
      if f !in a.levels[l] {
        assert UserApart(file, g);
      } else if g !in a.levels[l] {
        assert UserApart(file, f);
      }
    }
  }

  /** A file with nothing under it meets no file of the next level. */
  lemma {:induction false} MovedUnder(levels: Levels, level: nat, file: File)
    requires CompactionInputs(levels, level, [file], [])
    ensures forall g | g in levels[level + 1] :: UserApart(file, g)
  {
    var s, l :| IsRange([file], s, l) && [] == Overlapping(levels[level + 1], Some(s.user), Some(l.user));
    OverlappingEmpty(levels[level + 1], Some(s.user), Some(l.user));
    assert file in [file];
  }

  lemma {:induction false} CompactUncut(a: Db, b: Db, level: nat, in0: seq<File>, in1: seq<File>, outs: seq<File>)
    requires Uncutting(a) && CompactAsChosen(a, b, level, in0, in1, outs) && a.snapshots == []
    ensures Uncut(b.levels)
  {
    hide Inv, UniqueNumbers, CompactionInputs, OutputFiles, OutIsVisible;
    LevelsOf(a);
    InputsAreIn(a.levels, level, in0, in1);
    SavedRewrites(a.levels, b.levels, level, in0, in1, outs, Additions(level + 1, outs));
    forall l, f, g | 1 <= l < |b.levels| && f in b.levels[l] && g in b.levels[l] && f != g ensures UserApart(f, g) {
      assert Belongs(a.levels, level, in0, in1, outs, l, f) && Belongs(a.levels, level, in0, in1, outs, l, g);
      if f in a.levels[l] && !(l == level + 1 && f in outs) {
        if !(g in a.levels[l]) || (l == level + 1 && g in outs) {
          OutApartFromRest(a, level, in0, in1, outs, g, f);
        }
      } else if g in a.levels[l] && !(l == level + 1 && g in outs) {
        OutApartFromRest(a, level, in0, in1, outs, f, g);
      } else {
        OutsApart(a, level, in0, in1, outs, f, g);
      }
    }
  }

  /** Of a user key only one version is kept, so no two outputs share one. */
  lemma {:induction false} OutsApart(a: Db, level: nat, in0: seq<File>, in1: seq<File>, outs: seq<File>, f: File, g: File)
    requires Uncutting(a) && CompactionInputs(a.levels, level, in0, in1) && OutputFiles(a, level, in0, in1, outs) && a.snapshots == []
    requires f in outs && g in outs && f != g
    ensures UserApart(f, g)
  {
    hide Inv, Uncut, OutIsVisible, CompactionInputs;
    var i :| 0 <= i < |outs| && outs[i] == f;
    var j :| 0 <= j < |outs| && outs[j] == g;
    OutsOrdered(a, level, in0, in1, outs, if i < j then i else j, if i < j then j else i);
  }

  lemma {:induction false} OutsOrdered(a: Db, level: nat, in0: seq<File>, in1: seq<File>, outs: seq<File>, i: nat, j: nat)
    requires Uncutting(a) && CompactionInputs(a.levels, level, in0, in1) && OutputFiles(a, level, in0, in1, outs) && a.snapshots == []
    requires i < j < |outs|
    ensures outs[i].largest.user < outs[j].smallest.user
  {
    hide Inv, Uncut, OutIsVisible, CompactionInputs, Obsolete, AllEntries, InputEntries, VersionOk, UniqueNumbers, NumbersBelow, Live;
    var f, g := outs[i], outs[j];
    assert f in outs && g in outs && Before(f.largest, g.smallest);
    var x, y := f.entries[|f.entries| - 1], g.entries[0];
    assert x in f.entries && y in g.entries;
    assert x in LevelEntries(outs) && y in LevelEntries(outs);
    var E := InputEntries(in0, in1);
    InputsVisible(a, level, in0, in1, x);
    InputsVisible(a, level, in0, in1, y);
    FilesOfInv(a);
    assert Kept(a.levels, level, E, x, SmallestSnapshot(a)) && Kept(a.levels, level, E, y, SmallestSnapshot(a));
    SameUser(x, y);
    NewerSupersedes(E, x, y, SmallestSnapshot(a));
  }

  lemma {:induction false} NewerSupersedes(E: set<Entry>, x: Entry, y: Entry, s: nat)
    ensures x in E && x.user == y.user && y.seqno < x.seqno <= s ==> Superseded(E, y, s)
  {
  }

  /** Of two entries of a user key the one in front is newer. */
  lemma {:induction false} SameUser(x: Entry, y: Entry)
    requires Before(x.Key(), y.Key())
    ensures x.user == y.user ==> x.seqno > y.seqno || (x.seqno == y.seqno && x.op.Put? && y.op.Delete?)
  {
  }

  /** A file of the output level that stays meets no output: its user keys lie before those of all inputs or
      behind them. */
  lemma {:induction false} OutApartFromRest(a: Db, level: nat, in0: seq<File>, in1: seq<File>, outs: seq<File>, f: File, g: File)
    requires Uncutting(a) && CompactionInputs(a.levels, level, in0, in1) && OutputFiles(a, level, in0, in1, outs)
    requires f in outs && g in a.levels[level + 1] && g !in in1
    ensures UserApart(f, g)
  {
    hide Inv, Uncut, OutIsVisible, CompactionInputs, Kept;
    var x, y := f.entries[0], f.entries[|f.entries| - 1];
    assert x in f.entries && y in f.entries;
    assert x in LevelEntries(outs) && y in LevelEntries(outs);
    OutputsAreInputs(a, level, in0, in1, outs);
    var before := InputsOnOneSide(a, level, in0, in1, g);
  }

  lemma {:induction false} InputsOnOneSide(a: Db, level: nat, in0: seq<File>, in1: seq<File>, g: File) returns (before: bool)
    requires Uncutting(a) && CompactionInputs(a.levels, level, in0, in1) && g in a.levels[level + 1] && g !in in1
    ensures forall e | e in InputEntries(in0, in1) :: if before then g.largest.user < e.user else e.user < g.smallest.user
  {
    hide Inv, OutIsVisible, LeavesNewer, InputsIn;
    InputsAreIn(a.levels, level, in0, in1);
    SpansBelow(a, level);
    SpansBelow(a, level + 1);
    InputsInside(a.levels, level, in0, in1);
    var next := a.levels[level + 1];
    var s, l :| IsRange(in0, s, l) && in1 == Overlapping(next, Some(s.user), Some(l.user));
    before := g.largest.user < s.user;
    forall e | e in InputEntries(in0, in1) ensures if before then g.largest.user < e.user else e.user < g.smallest.user {
      var p :| (p in in0 || p in in1) && e in p.entries;
      ValidRange(p);
      FileOnOneSide(in0, next, s, l, g, p);
    }
  }

  lemma {:induction false} InputsInside(levels: Levels, level: nat, in0: seq<File>, in1: seq<File>)
    requires InputsIn(levels, level, in0, in1)
    ensures level + 1 < |levels| && (forall f | f in in0 :: f in levels[level]) && (forall f | f in in1 :: f in levels[level + 1])
  {
  }

  /** An input file p, next to a file g that does not meet the range of the inputs of the upper level. */
  lemma {:induction false} FileOnOneSide(in0: seq<File>, next: seq<File>, s: IKey, l: IKey, g: File, p: File)
    requires IsRange(in0, s, l) && !Overlaps(g, Some(s.user), Some(l.user)) && g.smallest.user <= g.largest.user
    requires p in in0 || (Overlaps(p, Some(s.user), Some(l.user)) && UserApart(p, g))
    requires p.smallest.user <= p.largest.user
    ensures if g.largest.user < s.user then g.largest.user < p.smallest.user else p.largest.user < g.smallest.user
  {
  }

  lemma {:induction false} InputsVisible(a: Db, level: nat, in0: seq<File>, in1: seq<File>, x: Entry)
    requires Inv(a) && OutIsVisible(a) && CompactionInputs(a.levels, level, in0, in1)
    ensures x in InputEntries(in0, in1) ==> x in AllEntries(a.levels) && x.seqno <= a.published
  {
    hide Inv, CompactionInputs, AllEntries, InputEntries;
    InputsAreIn(a.levels, level, in0, in1);
    StayingPlusInputs(a.levels, level, in0, in1);
  }

  lemma {:induction false} FlushVisible(a: Db, b: Db, level: nat, file: File)
    requires Inv(a) && OutIsVisible(a) && FlushStep(a, b, level, file)
    ensures OutIsVisible(b)
  {
    hide Inv, AllEntries, Saved, ClearThrough;
    if a.imm.value != {} {
      FlushedFiles(a, b, level, file);
    }
  }

  lemma {:induction false} MoveVisible(a: Db, b: Db, level: nat, file: File)
    requires Inv(a) && OutIsVisible(a) && MoveStep(a, b, level, file)
    ensures OutIsVisible(b)
  {
    hide Inv, AllEntries, Saved, CompactionInputs;
    MovedFiles(a, b, level, file);
  }

  lemma {:induction false} CompactVisible(a: Db, b: Db, level: nat, in0: seq<File>, in1: seq<File>, outs: seq<File>)
    requires Inv(a) && OutIsVisible(a) && CompactAsChosen(a, b, level, in0, in1, outs)
    ensures OutIsVisible(b)
  {
    hide Inv, AllEntries, Saved, CompactionInputs, OutputFiles;
    CompactedFiles(a, b, level, in0, in1, outs);
  }

  /** The steps that leave the files alone. */
  lemma {:induction false} QuietVisible(a: Db, b: Db)
    requires Inv(a) && OutIsVisible(a) && b.levels == a.levels
    requires b.published >= a.published && (b.imm == a.imm || (b.imm == Some(a.mem) && a.published == |a.history|))
    ensures OutIsVisible(b)
  {
    hide VersionOk, UniqueNumbers, NumbersBelow, AllReadsRight, AllEntries, NewerThan;
    forall e | e in a.mem && a.published == |a.history| ensures e.seqno <= a.published {
      assert e in Live(a);
    }
  }

  lemma {:induction false} PublishedGrows(a: Db)
    requires Inv(a)
    ensures a.published <= |a.history|
  {
    hide VersionOk, UniqueNumbers, NumbersBelow, AllReadsRight, AllEntries, NewerThan;
  }

  /** Each such step is a step of the store and cuts no key. */
  lemma {:induction false} FreeStepKeeps(a: Db, b: Db)
    requires Uncutting(a) && FreeStep(a, b)
    ensures Next(a, b) && Uncutting(b)
  {
    hide Inv, Uncut, OutIsVisible, FlushStep, MoveStep, CompactAsChosen, Harmless;
    PublishedGrows(a);
    if level: nat, file :| FlushStep(a, b, level, file) {
      FlushUncut(a, b, level, file);
      FlushVisible(a, b, level, file);
    } else if level: nat, file :| MoveStep(a, b, level, file) {
      MoveUncut(a, b, level, file);
      MoveVisible(a, b, level, file);
    } else if level: nat, in0, in1, outs :| CompactAsChosen(a, b, level, in0, in1, outs) && a.snapshots == [] {
      CompactUncut(a, b, level, in0, in1, outs);
      CompactVisible(a, b, level, in0, in1, outs);
      ChosenInputs(a, b, level, in0, in1, outs);
      UncutIsHarmless(a, level, in0, in1);
      assert CompactStep(a, b, level, in0, in1, outs);
    } else {
      assert b.levels == a.levels;
      QuietVisible(a, b);
      SameFilesUncut(a, b);
    }
    NextKeeps(a, b);
  }

  lemma {:induction false} ChosenInputs(a: Db, b: Db, level: nat, in0: seq<File>, in1: seq<File>, outs: seq<File>)
    requires CompactAsChosen(a, b, level, in0, in1, outs)
    ensures CompactionInputs(a.levels, level, in0, in1)
  {
  }

  lemma {:induction false} SameFilesUncut(a: Db, b: Db)
    requires Uncut(a.levels) && b.levels == a.levels
    ensures Uncut(b.levels)
  {
  }

  lemma {:induction false} InitUncutting(db: Db)
    requires Init(db)
    ensures Uncutting(db)
  {
    hide Inv;
    InitHasInv(db);
    EmptyLevelsOk(db.levels);
    assert forall l | 0 <= l < 7 :: db.levels[l] == [];
  }

  lemma {:induction false} FreeRunIsRun(states: seq<Db>, i: nat)
    requires FreeRun(states) && i < |states|
    ensures Uncutting(states[i]) && Run(states[..i + 1])
  {
    hide Uncutting, FreeStep, Next, Init;
    if i == 0 {
      InitUncutting(states[0]);
    } else {
      FreeRunIsRun(states, i - 1);
      FreeStepKeeps(states[i - 1], states[i]);
      var shorter, run := states[..i], states[..i + 1];
      forall k | 0 <= k < i ensures Next(run[k], run[k + 1]) {
        if k < i - 1 {
          assert Next(shorter[k], shorter[k + 1]);
        }
      }
    }
  }

  /** If no snapshot is held during compactions, every read at LastSequence or at a live snapshot returns what
      the plain write history holds there. */
  lemma {:induction false} FreeRunsReadHistory(states: seq<Db>, i: nat, user: UserKey, s: nat, p: Probe)
    requires FreeRun(states) && i < |states|
    requires Readable(states[i], s) && DbGet(states[i], user, s, p)
    ensures s <= |states[i].history|
    ensures ViewOf(p) == HistoryGet(states[i].history, user, s)
  {
    hide Uncutting, FreeRun, Run, DbGet;
    FreeRunIsRun(states, i);
    RunsReadHistory(states[..i + 1], i, user, s, p);
  }
}
