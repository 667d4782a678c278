/** Flushing, moving and compacting keep the files of every level well layered. */
module LsmLevels {
  import opened Basics
  import opened InternalKeys
  import opened Versions
  import opened Inputs
  import opened Edits
  import opened Lsm
  import opened LsmSteps

  // ---- Flush ----

  /** `to` is `from` with one more file at `level`. */
  ghost predicate AddsFile(from: Levels, to: Levels, level: nat, file: File) {
    && |to| == |from| && level < |from|
    && (forall m | 0 <= m < |to| :: SortedBySmallest(to[m]))
    && (forall m, f | 0 <= m < |to| :: f in to[m] <==> f in from[m] || (m == level && f == file))
  }

  lemma {:induction false} SavedAddsFile(from: Levels, to: Levels, level: nat, file: File)
    requires level < |from| && Saved(from, Edit({}, [(level, file)]), to)
    ensures AddsFile(from, to, level, file)
  {
    forall m, f | 0 <= m < |to|
      ensures f in to[m] <==> f in from[m] || (m == level && f == file)
    {
      assert LevelSaved(from[m], Edit({}, [(level, file)]), m, to[m]);
    }
    forall m | 0 <= m < |to|
      ensures SortedBySmallest(to[m])
    {
      assert LevelSaved(from[m], Edit({}, [(level, file)]), m, to[m]);
    }
  }

  lemma {:induction false} FlushedEntries(from: Levels, to: Levels, level: nat, file: File)
    requires AddsFile(from, to, level, file)
    ensures AllEntries(to) == AllEntries(from) + FileEntries(file)
    ensures forall m | 0 <= m < |to| :: LevelEntries(to[m]) == LevelEntries(from[m]) + (if m == level then FileEntries(file) else {})
  {
    forall e | e in AllEntries(to)
      ensures e in AllEntries(from) + FileEntries(file)
    {
      var l, f :| 0 <= l < |to| && f in to[l] && e in f.entries;
    }
    forall e | e in AllEntries(from) + FileEntries(file)
      ensures e in AllEntries(to)
    {
      if e in FileEntries(file) {
        assert file in to[level];
      } else {
        var l, f :| 0 <= l < |from| && f in from[l] && e in f.entries;
        assert f in to[l];
      }
    }
    forall m | 0 <= m < |to|
      ensures LevelEntries(to[m]) == LevelEntries(from[m]) + (if m == level then FileEntries(file) else {})
    {
      forall e | e in LevelEntries(to[m])
        ensures e in LevelEntries(from[m]) + (if m == level then FileEntries(file) else {})
      {
        var f :| f in to[m] && e in f.entries;
      }
      forall f | f in from[m] ensures f in to[m] {}
      if m == level {
        assert file in to[m];
      }
    }
  }

  lemma {:induction false} NoSharedKeys(fs: seq<File>, file: File)
    requires ValidFiles(fs) && file.Valid()
    requires forall f | f in fs :: !Overlaps(f, Some(file.smallest.user), Some(file.largest.user))
    ensures NewerThan(LevelEntries(fs), FileEntries(file))
  {
    forall x, y | x in LevelEntries(fs) && y in FileEntries(file)
      ensures x.user != y.user
    {
      var g :| g in fs && x in g.entries;
      FileKeyRange(g, x);
      FileKeyRange(file, y);
    }
  }

  lemma {:induction false} LayersAfterAdd(from: Levels, to: Levels, level: nat, added: set<Entry>)
    requires NewerByLevel(from) && |from| == |to| && level < |from|
    requires forall m | 0 <= m < |to| :: LevelEntries(to[m]) == LevelEntries(from[m]) + (if m == level then added else {})
    requires forall m | 0 <= m < |from| :: NewerThan(added, LevelEntries(from[m]))
    requires forall m | 0 <= m < level :: NewerThan(LevelEntries(from[m]), added)
    ensures NewerByLevel(to)
  {
    forall i, j | 0 <= i < j < |to|
      ensures NewerThan(LevelEntries(to[i]), LevelEntries(to[j]))
    {
      assert NewerThan(LevelEntries(from[i]), LevelEntries(from[j]));
    }
  }

  lemma {:induction false} FlushedLayers(from: Levels, to: Levels, level: nat, file: File)
    requires VersionOk(from) && AddsFile(from, to, level, file) && file.Valid()
    requires NewerThan(FileEntries(file), AllEntries(from))
    requires level > 0 ==> ClearThrough(from, level, file.smallest.user, file.largest.user)
    ensures NewerByLevel(to)
  {
    FlushedEntries(from, to, level, file);
    forall m | 0 <= m < |from|
      ensures NewerThan(FileEntries(file), LevelEntries(from[m]))
    {
      InAll(from, m);
    }
    forall m | 0 <= m < level
      ensures NewerThan(LevelEntries(from[m]), FileEntries(file))
    {
      ValidLevel(from, m);
      NoSharedKeys(from[m], file);
    }
    LayersAfterAdd(from, to, level, FileEntries(file));
  }

  lemma {:induction false} InAll(levels: Levels, l: nat)
    requires l < |levels|
    ensures LevelEntries(levels[l]) <= AllEntries(levels)
  {
    forall e | e in LevelEntries(levels[l])
      ensures e in AllEntries(levels)
    {
      var f :| f in levels[l] && e in f.entries;
    }
  }

  lemma {:induction false} FlushedSortedLevel(from: seq<File>, to: seq<File>, file: File)
    requires Disjoint(from) && file.Valid() && SortedBySmallest(to)
    requires forall f :: f in to <==> f in from || f == file
    requires forall f | f in from :: !Overlaps(f, Some(file.smallest.user), Some(file.largest.user))
    ensures Disjoint(to)
  {
    forall i | 0 <= i < |to|
      ensures to[i].Valid()
    {
      assert to[i] in to;
    }
    forall f, g | f in to && g in to && f != g
      ensures Before(f.largest, g.smallest) || Before(g.largest, f.smallest)
    {
      if f != file && g != file {
        OrderedPair(from, f, g);
      }
    }
    SavedDisjoint(to);
  }

  lemma {:induction false} FlushedLevelZero(from: seq<File>, to: seq<File>, file: File)
    requires ValidFiles(from) && NewerByNumber(from) && file.Valid() && SortedBySmallest(to)
    requires forall f :: f in to <==> f in from || f == file
    requires forall f | f in from :: f.number < file.number
    requires NewerThan(FileEntries(file), LevelEntries(from))
    ensures ValidFiles(to) && NewerByNumber(to)
  {
    forall i | 0 <= i < |to|
      ensures to[i].Valid()
    {
      assert to[i] in to;
    }
    forall f, g | f in to && g in to && f.number > g.number
      ensures NewerThan(FileEntries(f), FileEntries(g))
    {
      if f == file {
        assert FileEntries(g) <= LevelEntries(from);
      }
    }
    forall f, g | f in to && g in to && f.number == g.number
      ensures f == g
    {
      if f != file && g != file {
        SameNumberSameFile(from, f, g);
      }
    }
    SortedDistinct(to);
  }

  lemma {:induction false} FlushedVersion(from: Levels, to: Levels, level: nat, file: File)
    requires VersionOk(from) && AddsFile(from, to, level, file) && file.Valid() && NumbersBelow(from, file.number)
    requires NewerThan(FileEntries(file), AllEntries(from))
    requires level > 0 ==> ClearThrough(from, level, file.smallest.user, file.largest.user)
    ensures VersionOk(to)
  {
    FlushedLayers(from, to, level, file);
    InAll(from, 0);
    if level == 0 {
      FlushedLevelZero(from[0], to[0], file);
    } else {
      ShrunkLevel(from[0], to[0]);
      ShrunkLevelZero(from[0], to[0]);
    }
    forall m | 1 <= m < |to|
      ensures Disjoint(to[m])
    {
      assert Disjoint(from[m]);
      if m == level {
        FlushedSortedLevel(from[m], to[m], file);
      } else {
        ShrunkLevel(from[m], to[m]);
      }
    }
  }

  // ---- Moves and compactions ----

  /** f belongs at level m once in0 and in1 are replaced by outs. */
  ghost predicate Belongs(from: Levels, level: nat, in0: seq<File>, in1: seq<File>, outs: seq<File>, m: nat, f: File)
    requires m < |from|
  {
    || (f in from[m] && !(m == level && f in in0) && !(m == level + 1 && f in in1))
    || (m == level + 1 && f in outs)
  }

  /** `to` is `from` with in0 and in1 gone and outs at the next level. */
  ghost predicate Rewritten(from: Levels, to: Levels, level: nat, in0: seq<File>, in1: seq<File>, outs: seq<File>) {
    && |to| == |from| && level + 1 < |from|
    && (forall m | 0 <= m < |to| :: SortedBySmallest(to[m]))
    && (forall m, f | 0 <= m < |to| :: f in to[m] <==> Belongs(from, level, in0, in1, outs, m, f))
  }

  lemma {:induction false} RewrittenEntries(from: Levels, to: Levels, level: nat, in0: seq<File>, in1: seq<File>, outs: seq<File>)
    requires Rewritten(from, to, level, in0, in1, outs)
    ensures AllEntries(to) == Staying(from, level, in0, in1) + LevelEntries(outs)
  {
    forall e | e in AllEntries(to)
      ensures e in Staying(from, level, in0, in1) + LevelEntries(outs)
    {
      var l, f :| 0 <= l < |to| && f in to[l] && e in f.entries;
      assert f in to[l];
    }
    forall e | e in Staying(from, level, in0, in1) + LevelEntries(outs)
      ensures e in AllEntries(to)
    {
      if e in LevelEntries(outs) {
        var f :| f in outs && e in f.entries;
        assert f in to[level + 1];
      } else {
        var l, f :| 0 <= l < |from| && f in from[l] && !(l == level && f in in0) && !(l == level + 1 && f in in1) && e in f.entries;
        assert f in to[l];
      }
    }
  }

  /** g lies wholly before or wholly after the entries E. */
  ghost predicate Apart(g: File, E: set<Entry>) {
    (forall e | e in E :: Before(g.largest, e.Key())) || (forall e | e in E :: Before(e.Key(), g.smallest))
  }

  /** A remaining file of the next level lies wholly before or wholly after the inputs. */
  lemma {:induction false} ApartFromInputs(next: seq<File>, in0: seq<File>, in1: seq<File>, g: File)
    requires Disjoint(next) && ValidFiles(in0) && CoversNextLevel(next, in0, in1)
    requires g in next && g !in in1
    ensures Apart(g, InputEntries(in0, in1))
  {
    var smallest, largest :| IsRange(in0, smallest, largest)
                          && in1 == Overlapping(next, Some(smallest.user), Some(largest.user));
    forall e | e in InputEntries(in0, in1)
      ensures if g.largest.user < smallest.user then Before(g.largest, e.Key()) else Before(e.Key(), g.smallest)
    {
      ApartOnOneSide(next, in0, in1, smallest, largest, g, e);
    }
  }

  lemma {:induction false} ApartOnOneSide(next: seq<File>, in0: seq<File>, in1: seq<File>, smallest: IKey, largest: IKey, g: File, e: Entry)
    requires Disjoint(next) && ValidFiles(in0) && IsRange(in0, smallest, largest)
    requires in1 == Overlapping(next, Some(smallest.user), Some(largest.user))
    requires g in next && g !in in1 && e in InputEntries(in0, in1)
    ensures g.largest.user < smallest.user || largest.user < g.smallest.user
    ensures if g.largest.user < smallest.user then Before(g.largest, e.Key()) else Before(e.Key(), g.smallest)
  {
    assert !Overlaps(g, Some(smallest.user), Some(largest.user));
    ValidSpans(next);
    if e in LevelEntries(in0) {
      var f :| f in in0 && e in f.entries;
      FileKeyRange(f, e);
    } else {
      var h :| h in in1 && e in h.entries;
      OrderedPair(next, g, h);
      FileKeyRange(h, e);
      FileKeyRange(g, LastEntry(g));
    }
  }

  lemma {:induction false} OutputApart(E: set<Entry>, o: File, g: File)
    requires Apart(g, E) && o.Valid() && FileEntries(o) <= E
    ensures Before(o.largest, g.smallest) || Before(g.largest, o.smallest)
  {
    assert o.entries[0] in FileEntries(o) && LastEntry(o) in FileEntries(o);
  }

  lemma {:induction false} OutputLevelDisjoint(next: seq<File>, in1: seq<File>, E: set<Entry>, outs: seq<File>, to: seq<File>)
    requires Disjoint(next) && ValidFiles(outs) && Ordered(outs)
    requires forall g | g in next && g !in in1 :: Apart(g, E)
    requires forall o | o in outs :: o.Valid() && FileEntries(o) <= E
    requires SortedBySmallest(to) && forall f :: f in to <==> (f in next && f !in in1) || f in outs
    ensures Disjoint(to)
  {
    forall i | 0 <= i < |to|
      ensures to[i].Valid()
    {
      assert to[i] in to;
    }
    forall f, g | f in to && g in to && f != g
      ensures Before(f.largest, g.smallest) || Before(g.largest, f.smallest)
    {
      if f in outs && g in outs {
        OrderedPair(outs, f, g);
      } else if f in outs {
        OutputApart(E, f, g);
      } else if g in outs {
        OutputApart(E, g, f);
      } else {
        OrderedPair(next, f, g);
      }
    }
    SavedDisjoint(to);
  }

  lemma {:induction false} RewrittenLevelEntries(from: Levels, to: Levels, level: nat, in0: seq<File>, in1: seq<File>, outs: seq<File>, m: nat)
    requires Rewritten(from, to, level, in0, in1, outs) && InputsIn(from, level, in0, in1) && m < |to|
    requires LevelEntries(outs) <= InputEntries(in0, in1)
    ensures LevelEntries(to[m]) <= LevelEntries(from[m]) + (if m == level + 1 then LevelEntries(in0) else {})
  {
    forall e | e in LevelEntries(to[m])
      ensures e in LevelEntries(from[m]) + (if m == level + 1 then LevelEntries(in0) else {})
    {
      var f :| f in to[m] && e in f.entries;
      if f !in from[m] {
        assert e in LevelEntries(outs);
        if e in LevelEntries(in1) {
          var h :| h in in1 && e in h.entries;
        }
      }
    }
  }

  lemma {:induction false} RemainingIsNewer(files: seq<File>, chosen: seq<File>, stay: seq<File>)
    requires ValidFiles(files) && Unambiguous(LevelEntries(files)) && LeavesNewer(files, chosen)
    requires forall f | f in chosen :: f in files
    requires forall g | g in stay :: g in files && g !in chosen
    ensures NewerThan(LevelEntries(stay), LevelEntries(chosen))
  {
    forall r, t | r in LevelEntries(stay) && t in LevelEntries(chosen) && r.user == t.user
      ensures r.seqno > t.seqno
    {
      var g :| g in stay && r in g.entries;
      var f :| f in chosen && t in f.entries;
      LeftBehindIsNewer(files, chosen, f, g, t, r);
    }
  }

  lemma {:induction false} RewrittenLayers(from: Levels, to: Levels, level: nat, in0: seq<File>, in1: seq<File>, outs: seq<File>)
    requires VersionOk(from) && Unambiguous(AllEntries(from)) && Rewritten(from, to, level, in0, in1, outs)
    requires InputsIn(from, level, in0, in1) && LeavesNewer(from[level], in0)
    requires LevelEntries(outs) <= InputEntries(in0, in1)
    ensures NewerByLevel(to)
  {
    forall m | 0 <= m < |to|
      ensures LevelEntries(to[m]) <= LevelEntries(from[m]) + (if m == level + 1 then LevelEntries(in0) else {})
    {
      RewrittenLevelEntries(from, to, level, in0, in1, outs, m);
    }
    ValidLevel(from, level);
    UnambiguousLevel(from, level);
    RemainingIsNewer(from[level], in0, to[level]);
    LayersAfterMove(from, to, level, LevelEntries(in0));
  }

  lemma {:induction false} RewrittenOutputLevel(from: Levels, to: Levels, level: nat, in0: seq<File>, in1: seq<File>, outs: seq<File>)
    requires VersionOk(from) && Rewritten(from, to, level, in0, in1, outs)
    requires CompactionInputs(from, level, in0, in1)
    requires ValidFiles(outs) && Ordered(outs) && LevelEntries(outs) <= InputEntries(in0, in1)
    ensures Disjoint(to[level + 1])
  {
    var next := from[level + 1];
    assert Disjoint(next);
    ValidLevel(from, level);
    ValidSubset(from[level], in0);
    forall g | g in next && g !in in1
      ensures Apart(g, InputEntries(in0, in1))
    {
      ApartFromInputs(next, in0, in1, g);
    }
    forall o | o in outs
      ensures o.Valid() && FileEntries(o) <= InputEntries(in0, in1)
    {
      assert FileEntries(o) <= LevelEntries(outs);
    }
    OutputLevelDisjoint(next, in1, InputEntries(in0, in1), outs, to[level + 1]);
  }

  lemma {:induction false} ValidSubset(fs: seq<File>, r: seq<File>)
    requires ValidFiles(fs) && forall f | f in r :: f in fs
    ensures ValidFiles(r)
  {
    forall i | 0 <= i < |r|
      ensures r[i].Valid()
    {
      assert r[i] in fs;
    }
  }

  lemma {:induction false} RewrittenVersion(from: Levels, to: Levels, level: nat, in0: seq<File>, in1: seq<File>, outs: seq<File>)
    requires VersionOk(from) && Unambiguous(AllEntries(from)) && Rewritten(from, to, level, in0, in1, outs)
    requires CompactionInputs(from, level, in0, in1) && InputsIn(from, level, in0, in1)
    requires ValidFiles(outs) && Ordered(outs) && LevelEntries(outs) <= InputEntries(in0, in1)
    ensures VersionOk(to)
  {
    hide NewerByLevel, CoversNextLevel, LeavesNewer, Disjoint, LevelEntries, AllEntries, InputEntries, Unambiguous;
    RewrittenLayers(from, to, level, in0, in1, outs);
    RewrittenOutputLevel(from, to, level, in0, in1, outs);
    assert forall f | f in to[0] :: f in from[0];
    ShrunkLevel(from[0], to[0]);
    ShrunkLevelZero(from[0], to[0]);
    forall m | 1 <= m < |to|
      ensures Disjoint(to[m])
    {
      if m != level + 1 {
        RewrittenOtherLevel(from, to, level, in0, in1, outs, m);
      }
    }
  }

  lemma {:induction false} RewrittenOtherLevel(from: Levels, to: Levels, level: nat, in0: seq<File>, in1: seq<File>, outs: seq<File>, m: nat)
    requires Rewritten(from, to, level, in0, in1, outs) && m < |to| && m != level + 1 && Disjoint(from[m])
    ensures Disjoint(to[m])
  {
    forall f | f in to[m]
      ensures f in from[m]
    {
      assert f in outs ==> m != level + 1;
    }
    ShrunkLevel(from[m], to[m]);
  }
}
