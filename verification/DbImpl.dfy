/** The database object (db/db_impl.cc): its methods are the steps of the state machine. */
module Database {
  import opened Basics
  import opened InternalKeys
  import opened Versions
  import opened Inputs
  import opened Compactions
  import opened CompactionCuts
  import opened Edits
  import opened Builders
  import opened Lsm
  import opened LsmReads
  import opened LsmSteps
  import opened LsmLevels
  import opened LsmSafety
  import opened SortedRuns

  const STOP_WRITES_TRIGGER: nat := 12

  lemma {:induction false} RangesOfVersion(levels: Levels)
    requires VersionOk(levels)
    ensures LevelRanges(levels)
    ensures forall l, f | 0 <= l < |levels| && f in levels[l] :: f.Valid() && f.largest.kind <= 1
  {
    ValidSpans(levels[0]);
    assert Distinct(levels[0]);
    forall l, f | 0 <= l < |levels| && f in levels[l]
      ensures f.Valid() && f.largest.kind <= 1
    {
      ValidLevel(levels, l);
    }
  }

  /** What a background compaction is asked for: a manual range with its byte limit, a level that is too
      large, or a file that was sought too often. */
  datatype Job = Manual(begin: Bound, end: Bound, limit: nat) | SizeDriven | SeekDriven(pick: nat)

  ghost predicate Feasible(levels: Levels, level: nat, job: Job) {
    && level + 1 < NUM_LEVELS && level < |levels|
    && (job.SizeDriven? ==> levels[level] != []) && (job.SeekDriven? ==> job.pick < |levels[level]|)
  }

  /** The choice c contains what the job is for. */
  ghost predicate Answered(levels: Levels, level: nat, job: Job, pointer: Option<IKey>, c: Choice, inputs: seq<File>)
    requires level < |levels|
  {
    && (forall f | f in inputs :: f in c.in0)
    && match job
       case Manual(begin, end, limit) =>
         if level == 0 then forall f | f in levels[0] && Overlaps(f, begin, end) :: f in inputs
         else CutShort(inputs, Overlapping(levels[level], begin, end), limit)
       case SizeDriven =>
         exists k :: 0 <= k < |levels[level]| && inputs == [levels[level][k]]
           && (forall i | 0 <= i < k :: !AfterPointer(levels[level][i], pointer))
           && (AfterPointer(levels[level][k], pointer) || (k == 0 && forall f | f in levels[level] :: !AfterPointer(f, pointer)))
       case SeekDriven(pick) => pick < |levels[level]| && levels[level][pick] in c.in0
  }

  lemma {:induction false} ChoiceInputs(levels: Levels, level: nat, c: Choice)
    requires ChosenAt(levels, level, c)
    ensures CompactionInputs(levels, level, c.in0, c.in1)
  {
  }

  /** to is from and one file more, at `level`: the table number, of `size` bytes and the entries es. */
  ghost predicate FlushedTo(from: Levels, to: Levels, es: seq<Entry>, file: File, level: nat, number: nat, size: nat) {
    && file.number == number && file.size == size && file.entries == es
    && |to| == |from| && level < |from|
    && (forall f :: f in to[level] <==> f in from[level] || f == file)
    && (forall l, f | 0 <= l < |from| && l != level :: f in to[l] <==> f in from[l])
  }

  /** The keys lo to hi are flushed to `level`: nothing at it or above meets them if it is below level 0,
      and one level more would meet them, or lie right above more than limit bytes of them. */
  ghost predicate DeepestClear(levels: Levels, level: nat, lo: UserKey, hi: UserKey, limit: nat) {
    && (level > 0 ==> forall l, f | 0 <= l <= level && l < |levels| && f in levels[l] :: f.largest.user < lo || hi < f.smallest.user)
    && (level < 2 && level + 2 < |levels| ==>
      || (level == 0 && exists f :: f in levels[0] && f.smallest.user <= hi && lo <= f.largest.user)
      || (exists f :: f in levels[level + 1] && f.smallest.user <= hi && lo <= f.largest.user)
      || TotalFileSize(Overlapping(levels[level + 2], Some(lo), Some(hi))) > limit)
  }

  lemma {:induction false} PickedDeepest(levels: Levels, level: nat, lo: UserKey, hi: UserKey, limit: nat)
    requires level + 2 < |levels| && (level > 0 ==> ClearThrough(levels, level, lo, hi))
    requires level < 2 ==>
      || (level == 0 && MeetsLevel(levels[0], lo, hi))
      || MeetsLevel(levels[level + 1], lo, hi)
      || TotalFileSize(Overlapping(levels[level + 2], Some(lo), Some(hi))) > limit
    ensures DeepestClear(levels, level, lo, hi, limit)
  {
    forall l, f | 0 <= l <= level && l < |levels| && f in levels[l] && level > 0
      ensures f.largest.user < lo || hi < f.smallest.user
    {
      assert !Overlaps(f, Some(lo), Some(hi));
    }
  }

  lemma {:induction false} OnlyAdds(from: Levels, to: Levels, level: nat, file: File)
    requires Saved(from, Edit({}, [(level, file)]), to) && level < |from|
    ensures |to| == |from| && forall f :: f in to[level] <==> f in from[level] || f == file
    ensures forall l, f | 0 <= l < |from| && l != level :: f in to[l] <==> f in from[l]
  {
    var edit := Edit({}, [(level, file)]);
    assert edit.added[0] == (level, file);
    forall l, f | 0 <= l < |from|
      ensures f in to[l] <==> f in from[l] || (l == level && f == file)
    {
      assert LevelSaved(from[l], edit, l, to[l]);
    }
  }

  datatype Room = Ready | Waiting | Switched

  class DBImpl {
    var mem: seq<Entry>
    var imm: Option<seq<Entry>>
    var levels: Levels
    var lastSequence: nat
    var snapshots: seq<nat>
    var nextFile: nat
    var compactPointer: seq<Option<IKey>>
    ghost var history: seq<Write>
    ghost var floor: nat

    ghost function State(): Db
      reads this
    {
      Db(history, lastSequence, floor, EntrySet(mem), if imm.Some? then Some(EntrySet(imm.value)) else None,
         levels, snapshots, nextFile)
    }

    ghost predicate Shaped()
      reads this
    {
      && SortedEntries(mem)
      && (imm.Some? ==> SortedEntries(imm.value))
      && |levels| == |compactPointer| == NUM_LEVELS && LevelsSorted(levels)
    }

    ghost predicate Valid()
      reads this
    {
      Inv(State()) && Shaped() && lastSequence == |history|
    }

    constructor ()
      ensures Valid() && history == [] && |levels| == 7
    {
      mem, imm, levels := [], None, NO_FILES;
      lastSequence, snapshots, nextFile, compactPointer := 0, [], 1, seq(NUM_LEVELS, _ => None);
      history, floor := [], 0;
      new;
      hide Inv;
      assert EntrySet(mem) == {};
      assert Init(State());
      InitHasInv(State());
    }

    /** Memtable, immutable memtable, files: the last write to user that the reader may see. */
    method Get(user: UserKey, snapshot: Option<nat>) returns (v: View)
      requires Valid() && (snapshot.Some? ==> snapshot.value in snapshots)
      ensures (if snapshot.Some? then snapshot.value else lastSequence) <= |history|
      ensures v == HistoryGet(history, user, if snapshot.Some? then snapshot.value else lastSequence)
      ensures LastWriteSays(history, user, if snapshot.Some? then snapshot.value else lastSequence, v)
    {
      hide LastWriteSays;
      var s := if snapshot.Some? then snapshot.value else lastSequence;
      SnapshotInRange(State(), s);
      FilesOfInv(State());
      SourceGetAnswers(mem, user, s);
      var p := SourceGet(mem, user, s);
      ghost var m := p;
      ghost var i := AnswerExists(ImmEntries(State()), user, s);
      ghost var w := AnswerExists(AllEntries(levels), user, s);
      if p.Absent? && imm.Some? {
        SourceGetAnswers(imm.value, user, s);
        p := SourceGet(imm.value, user, s);
        i := p;
      }
      if p.Absent? {
        p := Versions.Get(levels, user, s);
        w := p;
      }
      assert Answers(State().mem, user, s, m) && Answers(ImmEntries(State()), user, s, i) && Answers(AllEntries(State().levels), user, s, w);
      assert DbGet(State(), user, s, p);
      GetMatchesHistory(State(), user, s, p);
      HistoryGetMeans(history, user, s);
      v := ViewOf(p);
    }

    /** InsertInto, then SetLastSequence: the batch gets consecutive sequence numbers and becomes
        visible all at once. */
    method WriteBatch(batch: seq<Write>)
      requires Valid() && |history| + |batch| + 1 < MAX_SEQUENCE
      modifies this`mem, this`lastSequence, this`history
      ensures Valid() && history == old(history) + batch && lastSequence == old(lastSequence) + |batch|
    {
      var sequence := lastSequence + 1;
      for i := 0 to |batch|
        invariant Inv(State()) && Shaped() && sequence == |history| + 1
        invariant history == old(history) + batch[..i]
        invariant unchanged(this`lastSequence)
      {
        assert batch[..i + 1] == batch[..i] + [batch[i]];
        InsertOne(batch[i], sequence);
        sequence := sequence + 1;
      }
      assert batch[..|batch|] == batch;
      ghost var before := State();
      lastSequence := lastSequence + |batch|;
      PublishKeeps(before, State());
    }

    method InsertOne(w: Write, sequence: nat)
      requires Inv(State()) && Shaped() && sequence == |history| + 1 < MAX_SEQUENCE
      modifies this`mem, this`history
      ensures Inv(State()) && Shaped()
      ensures history == old(history) + [w]
    {
      ghost var before := State();
      NewInMem(before);
      var e := Entry(w.user, sequence, w.op);
      InsertEntrySorted(mem, e);
      mem := InsertEntry(mem, e);
      history := history + [w];
      assert EntrySet(mem) == before.mem + {e};
      InsertKeeps(before, State(), w);
    }

    /** One round of MakeRoomForWrite; full stands for the memory-usage test. */
    method MakeRoomForWrite(force: bool, full: bool) returns (room: Room)
      requires Valid()
      modifies this`mem, this`imm
      ensures Valid() && history == old(history)
      ensures room.Switched? <==> (force || full) && old(imm).None? && |levels[0]| < 12
      ensures room.Ready? <==> !force && !full
      ensures if room.Switched? then mem == [] && imm == Some(old(mem)) else mem == old(mem) && imm == old(imm)
    {
      if !force && !full {
        return Ready;
      }
      if imm.Some? || |levels[0]| >= STOP_WRITES_TRIGGER {
        return Waiting;
      }
      ghost var before := State();
      imm, mem := Some(mem), [];
      assert EntrySet([]) == {};
      SwitchKeeps(before, State());
      room := Switched;
    }

    method GetSnapshot() returns (s: nat)
      requires Valid()
      modifies this`snapshots
      ensures Valid() && s == lastSequence && snapshots == old(snapshots) + [s]
    {
      ghost var before := State();
      s := lastSequence;
      snapshots := snapshots + [s];
      SnapshotKeeps(before, State());
    }

    method ReleaseSnapshot(i: nat)
      requires Valid() && i < |snapshots|
      modifies this`snapshots
      ensures Valid() && snapshots == old(snapshots[..i] + snapshots[i + 1..])
    {
      ghost var before := State();
      snapshots := snapshots[..i] + snapshots[i + 1..];
      ReleaseKeeps(before, State(), i);
    }

    /** WriteLevel0Table and LogAndApply. size is the byte size of the table built. The one new file takes the
        next file number and holds the entries of the immutable memtable. It goes below level 0 only past
        levels its key range does not meet, and as far as it may: down to level 2 unless the next level
        meets the range or the level after that holds too many bytes of it. */
    method CompactMemTable(size: nat, maxGrandParentOverlap: nat) returns (ghost file: File, ghost level: nat)
      requires Valid() && imm.Some?
      modifies this`imm, this`levels, this`nextFile
      ensures Valid() && imm == None && nextFile == old(nextFile) + 1
      ensures Live(State()) == old(Live(State()))
      ensures old(imm.value) == [] ==> levels == old(levels)
      ensures old(imm.value) != [] ==> FlushedTo(old(levels), levels, old(imm.value), file, level, old(nextFile), size)
      ensures old(imm.value) != [] ==>
                level <= 2 && DeepestClear(old(levels), level, file.smallest.user, file.largest.user, maxGrandParentOverlap)
    {
      hide Inv, ClearThrough, SortedEntries, Saved, AllEntries, FlushedTo, DeepestClear;
      ghost var before := State();
      var es := imm.value;
      var number := nextFile;
      level, file := 0, File(number, size, IKey(0.0, 0, 0), IKey(0.0, 0, 0), []);
      if es != [] {
        file, level := FlushToLevel(es, number, size, maxGrandParentOverlap);
        assert es[0] in EntrySet(es) && FileEntries(file) == EntrySet(es);
      } else {
        assert EntrySet(es) == {};
      }
      imm := None;
      nextFile := number + 1;
      assert FlushStep(before, State(), level, file);
      FlushKeeps(before, State(), level, file);
      FlushKeepsEntries(before, State(), level, file);
    }

    method FlushToLevel(es: seq<Entry>, number: nat, size: nat, maxGrandParentOverlap: nat) returns (ghost file: File, ghost lvl: nat)
      requires Inv(State()) && Shaped() && es != [] && SortedEntries(es) && number == nextFile
      modifies this`levels
      ensures file.Valid() && file.entries == es && file.number == number && lvl <= MAX_MEM_COMPACT_LEVEL
      ensures lvl > 0 ==> ClearThrough(old(levels), lvl, file.smallest.user, file.largest.user)
      ensures Saved(old(levels), Edit({}, [(lvl, file)]), levels) && LevelsSorted(levels)
      ensures |levels| == NUM_LEVELS && FlushedTo(old(levels), levels, es, file, lvl, number, size)
      ensures lvl <= 2 && DeepestClear(old(levels), lvl, file.smallest.user, file.largest.user, maxGrandParentOverlap)
    {
      hide Inv, Saved, ClearThrough, DeepestClear, VersionOk, LevelRanges;
      FilesOfInv(State());
      RangesOfVersion(levels);
      SevenLevels(levels);
      var f := File(number, size, es[0].Key(), es[|es| - 1].Key(), es);
      var level := PickLevelForMemTableOutput(levels, f.smallest.user, f.largest.user, maxGrandParentOverlap);
      PickedDeepest(levels, level, f.smallest.user, f.largest.user, maxGrandParentOverlap);
      var edit := Edit({}, [(level, f)]);
      SingleNumber(edit, level, f);
      assert (level, number) !in NumbersOf(levels);
      ghost var was := levels;
      levels := Install(levels, edit);
      OnlyAdds(was, levels, level, f);
      file, lvl := f, level;
    }

    /** CompactRange or PickCompaction. */
    method Choose(level: nat, job: Job, sizeLimit: nat) returns (r: Option<Choice>, ghost inputs: seq<File>)
      requires Valid() && Feasible(levels, level, job)
      ensures r.Some? ==> ChosenAt(levels, level, r.value)
      ensures r.None? <==> job.Manual? && forall f | f in levels[level] :: !Overlaps(f, job.begin, job.end)
      ensures r.Some? ==> Answered(levels, level, job, compactPointer[level], r.value, inputs)
    {
      hide Inv, VersionOk, ChosenAt, CutShort;
      FilesOfInv(State());
      SevenLevels(levels);
      RangesOfVersion(levels);
      inputs := [];
      match job
      case Manual(begin, end, limit) =>
        r, inputs := CompactRange(levels, level, begin, end, limit, sizeLimit);
      case SizeDriven =>
        ghost var k;
        var c;
        c, k := PickSizeCompaction(levels, level, compactPointer[level], sizeLimit);
        r, inputs := Some(c), [levels[level][k]];
      case SeekDriven(pick) =>
        var c := CompactFile(levels, level, pick, sizeLimit);
        r := Some(c);
    }

    /** BackgroundCompaction: the inputs are chosen and the compaction pointer of the level moves on; then a
        trivial move when the job is automatic and nothing lies under a single file, and a rewrite
        otherwise. The store stays valid unless the rewrite exposes a hidden value. */
    method BackgroundCompaction(level: nat, job: Job, sizeLimit: nat, maxGrandParentOverlap: nat,
                                full: seq<Entry> -> bool, sizes: nat -> nat)
      returns (c: Option<Choice>, ghost inputs: seq<File>, ghost outs: seq<File>, ghost heavy: bool)
      requires Valid() && Feasible(levels, level, job)
      modifies this`levels, this`nextFile, this`floor, this`compactPointer
      ensures c.None? <==> job.Manual? && forall f | f in old(levels)[level] :: !Overlaps(f, job.begin, job.end)
      ensures c.None? ==> Valid() && State() == old(State()) && compactPointer == old(compactPointer)
      ensures c.Some? ==> ChosenAt(old(levels), level, c.value)
      ensures c.Some? ==> Answered(old(levels), level, job, old(compactPointer)[level], c.value, inputs)
      ensures c.Some? ==> compactPointer == old(compactPointer)[level := Some(c.value.pointer)]
      ensures c.Some? ==> if !job.Manual? && |c.value.in0| == 1 && |c.value.in1| == 0 && !heavy
                          then MoveStep(old(State()), State(), level, c.value.in0[0])
                          else CompactAsChosen(old(State()), State(), level, c.value.in0, c.value.in1, outs)
      ensures c.Some? ==> if level + 2 == NUM_LEVELS then !heavy
                          else OverlapHeavy(old(levels)[level + 2], c.value.in0 + c.value.in1, maxGrandParentOverlap, heavy)
      ensures c.Some? && Harmless(old(State()), level, c.value.in0, c.value.in1) ==> Valid()
      ensures Shaped() && CutFiles(old(levels), level, maxGrandParentOverlap, full, outs)
    {
      hide Inv, Answered, ChosenAt, Harmless, CompactAsChosen, MoveStep, OverlapHeavy, CutFiles;
      NoFilesCut(levels, level, maxGrandParentOverlap, full);
      outs, heavy := [], false;
      c, inputs := Choose(level, job, sizeLimit);
      if c.Some? {
        compactPointer := compactPointer[level := Some(c.value.pointer)];
        ChoiceInputs(levels, level, c.value);
        outs, heavy := Compact(level, c.value.in0, c.value.in1, job.Manual?, maxGrandParentOverlap, full, sizes);
      }
    }

    /** The compaction of chosen inputs. */
    method Compact(level: nat, in0: seq<File>, in1: seq<File>, isManual: bool, maxGrandParentOverlap: nat,
                   full: seq<Entry> -> bool, sizes: nat -> nat)
      returns (ghost outs: seq<File>, ghost heavy: bool)
      requires Valid() && level + 1 < NUM_LEVELS && CompactionInputs(levels, level, in0, in1)
      modifies this`levels, this`nextFile, this`floor
      ensures if !isManual && |in0| == 1 && |in1| == 0 && !heavy then MoveStep(old(State()), State(), level, in0[0])
              else CompactAsChosen(old(State()), State(), level, in0, in1, outs)
      ensures if level + 2 == NUM_LEVELS then !heavy
              else OverlapHeavy(old(levels)[level + 2], in0 + in1, maxGrandParentOverlap, heavy)
      ensures Harmless(old(State()), level, in0, in1) ==> Valid()
      ensures Shaped() && CutFiles(old(levels), level, maxGrandParentOverlap, full, outs)
    {
      hide CutFiles, Inv, VersionOk, AllEntries, InputEntries, Beside, Live, NeverExposes, UniqueNumbers, NumbersBelow, Unambiguous, OverlapHeavy;
      ghost var before := State();
      FilesOfInv(before);
      SevenLevels(levels);
      RangesOfVersion(levels);
      outs := [];
      NoFilesCut(levels, level, maxGrandParentOverlap, full);
      var much := HeavyGrandParents(levels, level, in0, in1, maxGrandParentOverlap);
      heavy := much;
      if !isManual && |in0| == 1 && |in1| == 0 && !much {
        assert in0 == [in0[0]] && in1 == [];
        MoveFile(level, in0[0]);
        MoveKeeps(before, State(), level, in0[0]);
      } else {
        outs := RewriteFiles(level, in0, in1, maxGrandParentOverlap, full, sizes);
        if Harmless(before, level, in0, in1) {
          CompactKeeps(before, State(), level, in0, in1, outs);
        }
      }
    }

    method MoveFile(level: nat, f: File)
      requires Valid() && CompactionInputs(levels, level, [f], [])
      modifies this`levels
      ensures MoveStep(old(State()), State(), level, f) && Shaped()
    {
      FilesOfInv(State());
      var edit := Edit({(level, f.number)}, [(level + 1, f)]);
      assert f in [f];
      SingleNumber(edit, level + 1, f);
      assert (level + 1, f.number) !in NumbersOf(levels);
      levels := Install(levels, edit);
    }

    method RewriteFiles(level: nat, in0: seq<File>, in1: seq<File>, maxGrandParentOverlap: nat,
                        full: seq<Entry> -> bool, sizes: nat -> nat)
      returns (ghost outs: seq<File>)
      requires Valid() && CompactionInputs(levels, level, in0, in1)
      modifies this`levels, this`nextFile, this`floor
      ensures CompactAsChosen(old(State()), State(), level, in0, in1, outs) && Shaped()
      ensures CutFiles(old(levels), level, maxGrandParentOverlap, full, outs)
    {
      hide CutFiles, Inv, VersionOk, LeavesNewer, CoversNextLevel, Kept, OutputFiles;
      ghost var before := State();
      var files := MergeAndDrop(level, in0, in1, maxGrandParentOverlap, full, sizes);
      var edit := Edit(Deletions(level, in0, in1), Additions(level + 1, files));
      RewriteEditOk(before, level, in0, in1, files);
      floor := if snapshots == [] then lastSequence else snapshots[0];
      levels := Install(levels, edit);
      nextFile := nextFile + |files|;
      outs := files;
    }

    /** The compaction loop over the merged inputs, and the tables it writes: none of them was full before its
        last entry, and none passes more than maxGrandParentOverlap bytes of the files two levels down. */
    method MergeAndDrop(level: nat, in0: seq<File>, in1: seq<File>, maxGrandParentOverlap: nat,
                        full: seq<Entry> -> bool, sizes: nat -> nat)
      returns (files: seq<File>)
      requires Valid() && CompactionInputs(levels, level, in0, in1)
      ensures OutputFiles(State(), level, in0, in1, files)
      ensures CutFiles(levels, level, maxGrandParentOverlap, full, files)
      ensures Collected(levels, level, files, if snapshots == [] then lastSequence else snapshots[0])
    {
      hide Collected, Inv, VersionOk, LeavesNewer, CoversNextLevel, Kept, LevelEntries, AllEntries, InputEntries, Unambiguous, PairwiseApart, AllReadsRight,
        OutputFiles, CompactionInputs, LevelRanges, SortedEntries, CutInto, ValidFiles, Cut, CutFiles, Grandparents, Ordered;
      FilesOfInv(State());
      ReadsOfInv(State());
      RangesOfVersion(levels);
      InputsMergeable(levels, level, in0, in1);
      var input := MergeEntries(in0 + in1);
      LowerIsApart(State(), level, in0, in1);
      SevenLevels(levels);
      var grandparents := FindGrandparents(levels, level, in0, in1);
      var c := new Compaction(levels, level, grandparents, maxGrandParentOverlap);
      var smallestSnapshot := if snapshots == [] then lastSequence else snapshots[0];
      var outputs := DoCompactionWork(c, input, smallestSnapshot, full);
      FilesOfSorted(outputs, nextFile, sizes);
      files := FilesOf(outputs, nextFile, sizes);
      OutputsRight(State(), level, in0, in1, Flatten(outputs), files);
      KeptAreInputs(levels, level, EntrySet(input), Flatten(outputs), smallestSnapshot);
      FilesAreCollected(levels, level, Flatten(outputs), smallestSnapshot, nextFile, files);
      FilesAreCut(State(), level, in0, in1, grandparents, maxGrandParentOverlap, full, outputs, files);
    }
  }

  lemma {:induction false} SingleNumber(edit: Edit, level: nat, f: File)
    requires edit.added == [(level, f)]
    ensures EditNumbers(edit, 1) == {(level, f.number)}
  {
    assert NumberAt(edit, 0) == (level, f.number);
    forall p | p in EditNumbers(edit, 1)
      ensures p == (level, f.number)
    {
      var i: nat :| i < 1 && p == NumberAt(edit, i);
    }
  }

  lemma {:induction false} CutEntries(files: seq<File>, n: nat, whole: seq<Entry>)
    requires CutInto(files, n, whole)
    ensures ValidFiles(files) && Ordered(files) && forall i | 0 <= i < |files| :: files[i].number == n + i
    ensures forall e :: e in LevelEntries(files) <==> e in whole
  {
  }

  /** Files cut from the kept entries are the output files of a compaction. */
  lemma {:induction false} OutputsRight(a: Db, level: nat, in0: seq<File>, in1: seq<File>, whole: seq<Entry>, files: seq<File>)
    requires CutInto(files, a.nextFile, whole)
    requires forall e :: e in whole <==> Kept(a.levels, level, InputEntries(in0, in1), e, SmallestSnapshot(a))
    ensures OutputFiles(a, level, in0, in1, files)
  {
    hide Kept, InputEntries;
    CutEntries(files, a.nextFile, whole);
  }

  /** The edit of a compaction adds only new numbers. */
  lemma {:induction false} RewriteEditOk(a: Db, level: nat, in0: seq<File>, in1: seq<File>, files: seq<File>)
    requires Inv(a) && CompactionInputs(a.levels, level, in0, in1) && OutputFiles(a, level, in0, in1, files)
    ensures var edit := Edit(Deletions(level, in0, in1), Additions(level + 1, files));
      EditOk(edit) && EditNumbers(edit, |edit.added|) !! NumbersOf(a.levels)
  {
    hide Inv, LeavesNewer, Kept, CoversNextLevel, VersionOk, UniqueNumbers, LevelEntries, InputEntries;
    FilesOfInv(a);
    NewNumbers(a.levels, Deletions(level, in0, in1), level + 1, files, a.nextFile);
  }

  lemma {:induction false} NewNumbers(levels: Levels, deleted: set<(nat, nat)>, level: nat, files: seq<File>, n: nat)
    requires NumbersBelow(levels, n) && level < NUM_LEVELS && forall p | p in deleted :: p.0 < NUM_LEVELS
    requires forall i | 0 <= i < |files| :: files[i].number == n + i
    ensures var edit := Edit(deleted, Additions(level, files));
      EditOk(edit) && EditNumbers(edit, |edit.added|) !! NumbersOf(levels)
  {
    AdditionsAt(level, files);
    var edit := Edit(deleted, Additions(level, files));
    forall p | p in EditNumbers(edit, |edit.added|)
      ensures p !in NumbersOf(levels)
    {
      var i: nat :| i < |edit.added| && p == NumberAt(edit, i);
      assert files[i].number >= n;
    }
  }

  /** No entry is in two input files. */
  lemma {:induction false} InputsMergeable(levels: Levels, level: nat, in0: seq<File>, in1: seq<File>)
    requires VersionOk(levels) && Unambiguous(AllEntries(levels)) && LevelRanges(levels)
    requires CompactionInputs(levels, level, in0, in1)
    ensures ValidFiles(in0 + in1) && PairwiseApart(in0 + in1) && Unambiguous(LevelEntries(in0 + in1))
    ensures LevelEntries(in0 + in1) == InputEntries(in0, in1)
  {
    hide VersionOk, Unambiguous, LevelRanges, LeavesNewer, AllEntries, CompactionInputs, CoversNextLevel, PairwiseApart, LevelEntries;
    InputsAreIn(levels, level, in0, in1);
    InputsApart(levels, level, in0, in1);
    ValidLevel(levels, level);
    ValidLevel(levels, level + 1);
    ValidSubset(levels[level], in0);
    ValidSubset(levels[level + 1], in1);
    EntriesOfBoth(in0, in1);
    StayingPlusInputs(levels, level, in0, in1);
    UnambiguousSubset(AllEntries(levels), LevelEntries(in0 + in1));
  }

  lemma {:induction false} EntriesOfBoth(in0: seq<File>, in1: seq<File>)
    ensures LevelEntries(in0 + in1) == InputEntries(in0, in1)
  {
    assert forall f | f in in0 + in1 :: f in in0 || f in in1;
    assert forall f | f in in0 || f in in1 :: f in in0 + in1;
  }

  lemma {:induction false} InputsApart(levels: Levels, level: nat, in0: seq<File>, in1: seq<File>)
    requires VersionOk(levels) && Unambiguous(AllEntries(levels)) && LevelRanges(levels)
    requires CompactionInputs(levels, level, in0, in1)
    ensures PairwiseApart(in0 + in1)
  {
    hide VersionOk, Unambiguous, LevelRanges, LeavesNewer, AllEntries, FileEntries;
    InputsAreIn(levels, level, in0, in1);
    var smallest, largest :| IsRange(in0, smallest, largest) && in1 == Overlapping(levels[level + 1], Some(smallest.user), Some(largest.user));
    OverlappingDistinct(levels, level + 1, Some(smallest.user), Some(largest.user));
    forall i, j | 0 <= i < j < |in0 + in1|
      ensures FileEntries((in0 + in1)[i]) !! FileEntries((in0 + in1)[j])
    {
      var f, g := (in0 + in1)[i], (in0 + in1)[j];
      if j < |in0| {
        SameLevelApart(levels, level, f, g);
      } else if i >= |in0| {
        SameLevelApart(levels, level + 1, f, g);
      } else {
        LevelsApart(levels, level, f, g);
      }
    }
  }

  lemma {:induction false} UnambiguousSubset(E: set<Entry>, S: set<Entry>)
    requires Unambiguous(E) && S <= E
    ensures Unambiguous(S)
  {
  }

  lemma {:induction false} SameLevelApart(levels: Levels, l: nat, f: File, g: File)
    requires VersionOk(levels) && l < |levels| && f in levels[l] && g in levels[l] && f != g
    ensures FileEntries(f) !! FileEntries(g)
  {
    forall x | x in FileEntries(f) && x in FileEntries(g)
      ensures false
    {
      if l == 0 {
        if f.number >= g.number {
          NewerEntry(levels[0], f, g, x, x);
        } else {
          NewerEntry(levels[0], g, f, x, x);
        }
      } else {
        assert Disjoint(levels[l]);
        DifferentFiles(levels[l], f, g, x, x);
      }
    }
  }

  lemma {:induction false} LevelsApart(levels: Levels, l: nat, f: File, g: File)
    requires VersionOk(levels) && l + 1 < |levels| && f in levels[l] && g in levels[l + 1]
    ensures FileEntries(f) !! FileEntries(g)
  {
    forall x | x in FileEntries(f) && x in FileEntries(g)
      ensures false
    {
      LayerOrder(levels, l, l + 1, f, g, x, x);
    }
  }

  /** heavy says whether the files that meet the key range of inputs hold more than limit bytes. */
  ghost predicate OverlapHeavy(files: seq<File>, inputs: seq<File>, limit: nat, heavy: bool) {
    exists lo, hi :: IsRange(inputs, lo, hi) && (heavy <==> TotalFileSize(Overlapping(files, Some(lo.user), Some(hi.user))) > limit)
  }

  /** The files two levels down that meet the key range of the inputs, if there is such a level. */
  ghost predicate Grandparents(levels: Levels, level: nat, in0: seq<File>, in1: seq<File>, gs: seq<File>) {
    if level + 2 >= |levels| then gs == []
    else exists lo, hi :: IsRange(in0 + in1, lo, hi) && gs == Overlapping(levels[level + 2], Some(lo.user), Some(hi.user))
  }

  /** The grandparents of a compaction, as SetupOtherInputs finds them. */
  method FindGrandparents(levels: Levels, level: nat, in0: seq<File>, in1: seq<File>) returns (gs: seq<File>)
    requires LevelRanges(levels) && CompactionInputs(levels, level, in0, in1)
    ensures Grandparents(levels, level, in0, in1, gs) && Ordered(gs)
  {
    if level + 2 >= NUM_LEVELS {
      return [];
    }
    InputsAreIn(levels, level, in0, in1);
    SubsetSpans(levels[level], in0);
    SubsetSpans(levels[level + 1], in1);
    var lo, hi := GetRange(in0 + in1);
    ghost var g0, g1;
    gs, g0, g1 := GetOverlappingInputs(levels[level + 2], false, Some(lo.user), Some(hi.user));
    var a := OverlappingIsSlice(levels[level + 2], Some(lo.user), Some(hi.user));
    SliceOrdered(levels[level + 2], gs, a);
  }

  lemma {:induction false} SliceOrdered(fs: seq<File>, r: seq<File>, a: nat)
    requires Ordered(fs) && Slice(fs, r, a)
    ensures Ordered(r)
  {
    forall i | 0 <= i < |r|
      ensures !Before(r[i].largest, r[i].smallest)
    {
      assert r[i] == fs[a + i];
    }
    forall i, j | 0 <= i < j < |r|
      ensures Before(r[i].largest, r[j].smallest)
    {
      assert r[i] == fs[a + i] && r[j] == fs[a + j];
    }
  }

  /** Whether too many bytes two levels down overlap the inputs (IsTrivialMove). */
  method HeavyGrandParents(levels: Levels, level: nat, in0: seq<File>, in1: seq<File>, limit: nat) returns (heavy: bool)
    requires LevelRanges(levels) && CompactionInputs(levels, level, in0, in1)
    ensures level + 2 == NUM_LEVELS ==> !heavy
    ensures level + 2 < NUM_LEVELS ==> OverlapHeavy(levels[level + 2], in0 + in1, limit, heavy)
  {
    hide LevelRanges, Overlapping, Ordered, IsRange;
    var grandparents := FindGrandparents(levels, level, in0, in1);
    SevenRanges(levels);
    heavy := TotalFileSize(grandparents) > limit;
  }

  lemma {:induction false} SevenRanges(levels: Levels)
    requires LevelRanges(levels)
    ensures |levels| == NUM_LEVELS
  {
  }

  /** No table was full before its last entry, and none passes more than limit bytes of the level two down from `level`. */
  ghost predicate CutFiles(levels: Levels, level: nat, limit: nat, full: seq<Entry> -> bool, files: seq<File>) {
    forall f | f in files ::
      && (forall k | 0 < k < |f.entries| :: !full(f.entries[..k]))
      && (level + 2 < |levels| ==> PassedBytes(levels[level + 2], f.smallest, f.largest) <= limit)
  }

  lemma {:induction false} NoFilesCut(levels: Levels, level: nat, limit: nat, full: seq<Entry> -> bool)
    ensures CutFiles(levels, level, limit, full, [])
  {
  }

  lemma {:induction false} FilesAreCut(a: Db, level: nat, in0: seq<File>, in1: seq<File>, gs: seq<File>, limit: nat,
                                       full: seq<Entry> -> bool, outputs: seq<seq<Entry>>, files: seq<File>)
    requires VersionOk(a.levels) && LevelRanges(a.levels) && CompactionInputs(a.levels, level, in0, in1)
    requires Grandparents(a.levels, level, in0, in1, gs) && Cut(gs, limit, full, outputs)
    requires (forall o | o in outputs :: |o| > 0) && exists n, sizes :: files == FilesOf(outputs, n, sizes)
    requires forall e | e in Flatten(outputs) :: e in LevelEntries(in0 + in1)
    requires ValidFiles(in0 + in1)
    ensures CutFiles(a.levels, level, limit, full, files)
  {
    hide VersionOk, LevelRanges, CompactionInputs, Cut, LevelEntries, PassedBytes, Grandparents;
    var n, sizes :| files == FilesOf(outputs, n, sizes);
    FilesOfLength(outputs, n, sizes);
    forall f | f in files
      ensures forall k | 0 < k < |f.entries| :: !full(f.entries[..k])
      ensures level + 2 < |a.levels| ==> PassedBytes(a.levels[level + 2], f.smallest, f.largest) <= limit
    {
      var i :| 0 <= i < |files| && files[i] == f;
      FilesOfAt(outputs, n, sizes, i);
      CutAt(gs, limit, full, outputs, i);
      if level + 2 < |a.levels| {
        NextIsSpans(a.levels, level + 2);
        SamePassed(a.levels, level, in0, in1, gs, outputs, i);
      }
    }
  }

  /** What a compaction leaves behind: of the entries of a user key at most one is as old as s, and a deletion as
      old as that is there only if a file further down may hold the key. */
  ghost predicate Collected(levels: Levels, level: nat, files: seq<File>, s: nat) {
    && (forall e, x | e in LevelEntries(files) && x in LevelEntries(files) && e.user == x.user && e.seqno < x.seqno :: s < x.seqno)
    && (forall e | e in LevelEntries(files) && e.op.Delete? && e.seqno <= s ::
          exists l, f :: level + 2 <= l < |levels| && f in levels[l] && f.smallest.user <= e.user <= f.largest.user)
  }

  lemma {:induction false} FilesAreCollected(levels: Levels, level: nat, whole: seq<Entry>, s: nat, n: nat, files: seq<File>)
    requires CutInto(files, n, whole) && CollectedEntries(levels, level, whole, s)
    ensures Collected(levels, level, files, s)
  {
    hide LevelEntries;
    CutEntries(files, n, whole);
  }

  lemma {:induction false} KeptAreInputs(levels: Levels, level: nat, E: set<Entry>, whole: seq<Entry>, s: nat)
    requires forall e :: e in whole <==> Kept(levels, level, E, e, s)
    ensures forall e | e in whole :: e in E
  {
  }

  lemma {:induction false} CutAt(gs: seq<File>, limit: nat, full: seq<Entry> -> bool, outputs: seq<seq<Entry>>, i: nat)
    requires Cut(gs, limit, full, outputs) && i < |outputs|
    ensures outputs[i] != [] && forall k | 0 < k < |outputs[i]| :: !full(outputs[i][..k])
    ensures PassedBytes(gs, outputs[i][0].Key(), outputs[i][|outputs[i]| - 1].Key()) <= limit
  {
    hide PassedBytes, StoppedBefore;
  }

  lemma {:induction false} NextIsSpans(levels: Levels, l: nat)
    requires LevelRanges(levels) && 1 <= l < |levels|
    ensures Spans(levels[l])
  {
  }

  lemma {:induction false} SamePassed(levels: Levels, level: nat, in0: seq<File>, in1: seq<File>, gs: seq<File>, outputs: seq<seq<Entry>>, i: nat)
    requires level + 2 < |levels| && Spans(levels[level + 2]) && Grandparents(levels, level, in0, in1, gs)
    requires i < |outputs| && outputs[i] != [] && ValidFiles(in0 + in1) && forall e | e in Flatten(outputs) :: e in LevelEntries(in0 + in1)
    ensures var o := outputs[i];
      PassedBytes(levels[level + 2], o[0].Key(), o[|o| - 1].Key()) == PassedBytes(gs, o[0].Key(), o[|o| - 1].Key())
  {
    hide LevelEntries, PassedBytes, IsRange, Overlapping, ValidFiles;
    var lo, hi :| IsRange(in0 + in1, lo, hi) && gs == Overlapping(levels[level + 2], Some(lo.user), Some(hi.user));
    var o := outputs[i];
    FlattenMember(outputs, i, o[0]);
    FlattenMember(outputs, i, o[|o| - 1]);
    UserInRange(in0 + in1, lo, hi, o[0]);
    UserInRange(in0 + in1, lo, hi, o[|o| - 1]);
    PassedOverlapping(levels[level + 2], lo.user, hi.user, o[0].Key(), o[|o| - 1].Key());
  }

  lemma {:induction false} UserInRange(files: seq<File>, lo: IKey, hi: IKey, e: Entry)
    requires ValidFiles(files) && IsRange(files, lo, hi) && e in LevelEntries(files)
    ensures lo.user <= e.user <= hi.user
  {
    var f :| f in files && e in f.entries;
    FileKeyRange(f, e);
  }

  lemma {:induction false} FlushKeepsEntries(a: Db, b: Db, level: nat, file: File)
    requires Inv(a) && FlushStep(a, b, level, file)
    ensures Live(b) == Live(a)
  {
    hide VersionOk, UniqueNumbers, NumbersBelow, AllReadsRight, FromHistory, Saved, ClearThrough, AllEntries;
    if a.imm.value != {} {
      FlushedFiles(a, b, level, file);
    }
    assert ImmEntries(b) + AllEntries(b.levels) == ImmEntries(a) + AllEntries(a.levels);
  }

  lemma {:induction false} NewInMem(a: Db)
    requires Inv(a)
    ensures forall x | x in a.mem :: x.seqno <= |a.history|
  {
    assert forall x | x in a.mem :: x in Live(a);
  }

  lemma {:induction false} SnapshotInRange(a: Db, s: nat)
    requires Inv(a) && Readable(a, s)
    ensures a.floor <= s <= a.published <= |a.history| < MAX_SEQUENCE
  {
  }
}
