/**
 * A deleted value that comes back: SetupOtherInputs looks for boundary files only at the input
 * level, so a tombstone at the end of a chosen output-level file can be dropped while the value it
 * hides starts the next file (db/version_set.cc, SetupOtherInputs). The store in which this happens is
 * the end of a run.
 */
module Resurrection {
  import opened Basics
  import opened InternalKeys
  import opened Versions
  import opened Inputs
  import opened Compactions
  import opened Edits
  import opened Lsm
  import opened LsmSafety

  const K1: UserKey := 1.0
  const K2: UserKey := 2.0

  const W1 := Entry(K2, 1, Put([1]))
  const W2 := Entry(K2, 2, Delete)
  const W3 := Entry(K1, 3, Put([2]))
  const W4 := Entry(K1, 4, Put([3]))

  const FLUSHED := File(1, 1, W3.Key(), W1.Key(), [W3, W2, W1])
  const LEFT := File(2, 1, W3.Key(), W2.Key(), [W3, W2])
  const RIGHT := File(3, 1, W1.Key(), W1.Key(), [W1])
  const UPPER := File(4, 1, W4.Key(), W4.Key(), [W4])
  const OUT := File(5, 1, W4.Key(), W4.Key(), [W4])

  const P1 := Write(K2, Put([1]))
  const P2 := Write(K2, Delete)
  const P3 := Write(K1, Put([2]))
  const P4 := Write(K1, Put([3]))

  /** Levels 0 and 1 and the deepest ones stay empty. */
  function TwoLevels(two: seq<File>, three: seq<File>): Levels {
    [[], [], two, three, [], [], []]
  }

  /** K2 is written; a snapshot is taken; K2 is deleted and K1 written; the memtable goes to level 2; a manual
      compaction cuts the file in two between the tombstone and the value, which the snapshot still needs;
      the snapshot is released; K1 is written again and its memtable goes to level 2. */
  const RUN: seq<Db> := [
    Db([], 0, 0, {}, None, TwoLevels([], []), [], 1),
    Db([P1], 0, 0, {W1}, None, TwoLevels([], []), [], 1),
    Db([P1], 1, 0, {W1}, None, TwoLevels([], []), [], 1),
    Db([P1], 1, 0, {W1}, None, TwoLevels([], []), [1], 1),
    Db([P1, P2], 1, 0, {W1, W2}, None, TwoLevels([], []), [1], 1),
    Db([P1, P2, P3], 1, 0, {W1, W2, W3}, None, TwoLevels([], []), [1], 1),
    Db([P1, P2, P3], 3, 0, {W1, W2, W3}, None, TwoLevels([], []), [1], 1),
    Db([P1, P2, P3], 3, 0, {}, Some({W1, W2, W3}), TwoLevels([], []), [1], 1),
    UNCUT,
    CUT,
    Db([P1, P2, P3], 3, 1, {}, None, TwoLevels([], [LEFT, RIGHT]), [], 4),
    Db([P1, P2, P3, P4], 3, 1, {W4}, None, TwoLevels([], [LEFT, RIGHT]), [], 4),
    Db([P1, P2, P3, P4], 4, 1, {W4}, None, TwoLevels([], [LEFT, RIGHT]), [], 4),
    Db([P1, P2, P3, P4], 4, 1, {}, Some({W4}), TwoLevels([], [LEFT, RIGHT]), [], 4),
    BEFORE]

  const UNCUT := Db([P1, P2, P3], 3, 0, {}, None, TwoLevels([FLUSHED], []), [1], 2)
  const CUT := Db([P1, P2, P3], 3, 1, {}, None, TwoLevels([], [LEFT, RIGHT]), [1], 4)
  const BEFORE := Db([P1, P2, P3, P4], 4, 1, {}, None, TwoLevels([UPPER], [LEFT, RIGHT]), [], 5)
  const AFTER := Db([P1, P2, P3, P4], 4, 4, {}, None, TwoLevels([], [OUT, RIGHT]), [], 6)

  /** The first writes and the snapshot between them. */
  lemma {:induction false} FirstWrites(i: nat)
    requires i < 7
    ensures Next(RUN[i], RUN[i + 1])
  {
    var a, b := RUN[i], RUN[i + 1];
    if i == 0 {
      assert InsertStep(a, b, P1);
    } else if i == 1 || i == 5 {
      assert PublishStep(a, b);
    } else if i == 2 {
      assert SnapshotStep(a, b);
    } else if i == 3 {
      assert InsertStep(a, b, P2);
    } else if i == 4 {
      assert InsertStep(a, b, P3);
    } else {
      assert SwitchStep(a, b);
    }
  }

  lemma {:induction false} LaterWrites(i: nat)
    requires 9 <= i < 13
    ensures Next(RUN[i], RUN[i + 1])
  {
    var a, b := RUN[i], RUN[i + 1];
    if i == 9 {
      assert ReleaseStep(a, b, 0);
    } else if i == 10 {
      assert InsertStep(a, b, P4);
    } else if i == 11 {
      assert PublishStep(a, b);
    } else {
      assert SwitchStep(a, b);
    }
  }

  lemma {:induction false} FilesValid()
    ensures FLUSHED.Valid() && LEFT.Valid() && RIGHT.Valid() && UPPER.Valid() && OUT.Valid()
    ensures FileEntries(FLUSHED) == {W1, W2, W3} && FileEntries(UPPER) == {W4} && FileEntries(OUT) == {W4}
    ensures FileEntries(LEFT) == {W3, W2} && FileEntries(RIGHT) == {W1}
  {
    assert W3 in FLUSHED.entries && W2 in FLUSHED.entries && W1 in FLUSHED.entries;
    assert W4 in UPPER.entries && W4 in OUT.entries && W1 in RIGHT.entries && W2 in LEFT.entries && W3 in LEFT.entries;
  }

  /** An edit that changes levels 2 and 3 only. */
  lemma {:induction false} SavedTwo(two: seq<File>, three: seq<File>, edit: Edit, two1: seq<File>, three1: seq<File>)
    requires LevelSaved(two, edit, 2, two1) && LevelSaved(three, edit, 3, three1)
    requires forall l: nat, f: File | (l, f) in edit.added :: l == 2 || l == 3
    ensures Saved(TwoLevels(two, three), edit, TwoLevels(two1, three1))
  {
    var from, to := TwoLevels(two, three), TwoLevels(two1, three1);
    forall l | 0 <= l < 7 ensures LevelSaved(from[l], edit, l, to[l]) {
      if l != 2 && l != 3 {
        assert from[l] == [] && to[l] == [];
      }
    }
  }

  lemma {:induction false} Flushes()
    ensures FlushStep(RUN[7], UNCUT, 2, FLUSHED) && FlushStep(RUN[13], BEFORE, 2, UPPER)
  {
    FilesValid();
    var first, second := Edit({}, [(2, FLUSHED)]), Edit({}, [(2, UPPER)]);
    assert LevelSaved([], first, 2, [FLUSHED]) && LevelSaved([], first, 3, []);
    SavedTwo([], [], first, [FLUSHED], []);
    assert LevelSaved([], second, 2, [UPPER]) && LevelSaved([LEFT, RIGHT], second, 3, [LEFT, RIGHT]);
    SavedTwo([], [LEFT, RIGHT], second, [UPPER], [LEFT, RIGHT]);
    ClearAbove([]);
    ClearAbove([LEFT, RIGHT]);
  }

  lemma {:induction false} ClearAbove(three: seq<File>)
    ensures forall lo, hi :: ClearThrough(TwoLevels([], three), 2, lo, hi)
  {
  }

  lemma {:induction false} EntriesOf()
    ensures LevelEntries([FLUSHED]) == {W1, W2, W3} && LevelEntries([]) == {} && LevelEntries([UPPER]) == {W4}
    ensures LevelEntries([LEFT]) == {W3, W2} && LevelEntries([OUT]) == {W4} && LevelEntries([LEFT, RIGHT]) == {W1, W2, W3}
  {
    FilesValid();
    assert FLUSHED in [FLUSHED] && UPPER in [UPPER] && LEFT in [LEFT] && OUT in [OUT] && LEFT in [LEFT, RIGHT] && RIGHT in [LEFT, RIGHT];
  }

  /** The compaction that cuts K2 in two. */
  lemma {:induction false} Cuts()
    ensures CompactStep(UNCUT, CUT, 2, [FLUSHED], [], [LEFT, RIGHT])
  {
    hide Harmless, Kept, CompactionInputs, OutputFiles, Saved;
    CutInputs();
    CutOutputs();
    CutSaved();
    CutHarmless();
  }

  lemma {:induction false} CutInputs()
    ensures CompactionInputs(UNCUT.levels, 2, [FLUSHED], [])
  {
    assert FLUSHED in [FLUSHED];
    assert IsRange([FLUSHED], W3.Key(), W1.Key());
    OverlappingEmpty([], Some(K1), Some(K2));
  }

  lemma {:induction false} CutOutputs()
    ensures OutputFiles(UNCUT, 2, [FLUSHED], [], [LEFT, RIGHT])
  {
    FilesValid();
    EntriesOf();
    var E := InputEntries([FLUSHED], []);
    assert E == {W1, W2, W3};
    forall e ensures Kept(UNCUT.levels, 2, E, e, 1) <==> e in E {
    }
    assert ValidFiles([LEFT, RIGHT]) && Ordered([LEFT, RIGHT]);
  }

  lemma {:induction false} CutSaved()
    ensures Saved(UNCUT.levels, Edit(Deletions(2, [FLUSHED], []), Additions(3, [LEFT, RIGHT])), CUT.levels)
  {
    var edit := Edit(Deletions(2, [FLUSHED], []), Additions(3, [LEFT, RIGHT]));
    assert FLUSHED in [FLUSHED];
    assert edit.deleted == {(2, 1)};
    assert LevelSaved([FLUSHED], edit, 2, []);
    assert LevelSaved([], edit, 3, [LEFT, RIGHT]);
    SavedTwo([FLUSHED], [], edit, [], [LEFT, RIGHT]);
  }

  lemma {:induction false} CutHarmless()
    ensures Harmless(UNCUT, 2, [FLUSHED], [])
  {
    forall t, x ensures !Exposes(Live(UNCUT), UNCUT.levels, 2, InputEntries([FLUSHED], []), Beside(UNCUT, 2, []), 1, t, x) {
      EntriesOf();
    }
  }

  lemma {:induction false} IsRun()
    ensures Run(RUN)
  {
    hide FlushStep, CompactStep;
    forall i | 0 <= i < 14 ensures Next(RUN[i], RUN[i + 1]) {
      if i < 7 {
        FirstWrites(i);
      } else if 9 <= i < 13 {
        LaterWrites(i);
      } else if i == 8 {
        Cuts();
      } else {
        Flushes();
      }
    }
  }

  // ---- What comes next ----

  lemma {:induction false} ChosenAsInCode()
    ensures CompactionInputs(BEFORE.levels, 2, [UPPER], [LEFT])
  {
    assert UPPER in [UPPER];
    assert IsRange([UPPER], W4.Key(), W4.Key());
    var meets := Overlapping([LEFT, RIGHT], Some(K1), Some(K1));
    FilterSlice([LEFT, RIGHT], (f: File) => Overlaps(f, Some(K1), Some(K1)), 0, 1, 2);
    assert [LEFT, RIGHT][..2] == [LEFT, RIGHT];
    assert meets == [LEFT];
  }

  lemma {:induction false} CompactsToAfter()
    ensures CompactAsChosen(BEFORE, AFTER, 2, [UPPER], [LEFT], [OUT])
  {
    hide Kept, Saved, CompactionInputs;
    EntriesOf();
    ChosenAsInCode();
    KeptEntry();
    FilesValid();
    SavedAfter();
  }

  lemma {:induction false} KeptEntry()
    ensures forall e :: Kept(BEFORE.levels, 2, InputEntries([UPPER], [LEFT]), e, 4) <==> e == W4
  {
    EntriesOf();
    var E := InputEntries([UPPER], [LEFT]);
    assert E == {W4, W3, W2};
    assert BaseLevel(BEFORE.levels, 2, K2) by {
      assert forall l | 4 <= l < 7 :: BEFORE.levels[l] == [];
    }
    assert Superseded(E, W3, 4) by {
      assert W4 in E;
    }
  }

  lemma {:induction false} SavedAfter()
    ensures Saved(BEFORE.levels, Edit(Deletions(2, [UPPER], [LEFT]), Additions(3, [OUT])), AFTER.levels)
  {
    var edit := Edit(Deletions(2, [UPPER], [LEFT]), Additions(3, [OUT]));
    assert UPPER in [UPPER] && LEFT in [LEFT];
    assert edit.deleted == {(2, 4), (3, 2)};
    assert forall m: nat, f: File :: (m, f) in edit.added <==> m == 3 && f == OUT;
    assert LevelSaved([LEFT, RIGHT], edit, 3, [OUT, RIGHT]);
    assert LevelSaved([UPPER], edit, 2, []);
    SavedTwo([UPPER], [LEFT, RIGHT], edit, [], [OUT, RIGHT]);
  }

  /** A run of legal steps, inputs chosen exactly as the code chooses them, and afterwards a read returns a
      value that was deleted. */
  lemma {:induction false} DeletedValueReturns()
    ensures Run(RUN) && RUN[|RUN| - 1] == BEFORE && Inv(BEFORE)
    ensures CompactAsChosen(BEFORE, AFTER, 2, [UPPER], [LEFT], [OUT])
    ensures Answers(Live(AFTER), K2, 4, Found([1])) && HistoryGet(AFTER.history, K2, 4) == NotFound
  {
    hide Inv, Run, CompactAsChosen, Live;
    IsRun();
    RunKeepsInv(RUN, 14);
    CompactsToAfter();
    AfterReads();
    assert HistoryGet(AFTER.history, K2, 2) == NotFound;
    assert HistoryGet(AFTER.history, K2, 3) == HistoryGet(AFTER.history, K2, 2);
  }

  lemma {:induction false} AfterReads()
    ensures Answers(Live(AFTER), K2, 4, Found([1]))
  {
    var levels := AFTER.levels;
    assert levels[3] == [OUT, RIGHT] && RIGHT in levels[3] && W1 in RIGHT.entries;
    forall e | e in Live(AFTER)
      ensures e == W4 || e == W1
    {
      var l, f: File :| 0 <= l < |levels| && f in levels[l] && e in f.entries;
    }
    assert Newest(Live(AFTER), K2, 4, W1);
  }
}
