/** Every step keeps the layering of versions; together with the effect on reads, it keeps Inv. */
module LsmSteps {
  import opened InternalKeys
  import opened Versions
  import opened Inputs
  import opened Edits
  import opened Lsm
  import opened LsmReads

  lemma {:induction false} LevelEntry(levels: Levels, l: nat, f: File, e: Entry)
    requires l < |levels| && f in levels[l] && e in f.entries
    ensures e in LevelEntries(levels[l]) && e in AllEntries(levels)
  {
  }

  lemma {:induction false} InsertKeeps(a: Db, b: Db, w: Write)
    requires Inv(a) && InsertStep(a, b, w)
    ensures Inv(b)
  {
    var e := Entry(w.user, |a.history| + 1, w.op);
    assert Live(b) == Live(a) + {e};
    InsertReads(Live(a), a.history, w, a.floor, a.published);
    assert FromHistory(b.history, Live(b)) by {
      forall x | x in Live(a)
        ensures 0 < x.seqno <= |b.history| && x == EntryAt(b.history, x.seqno)
      {
        assert x == EntryAt(a.history, x.seqno);
      }
    }
    assert PendingInMem(b) by {
      forall s | b.published < s <= |b.history| < MAX_SEQUENCE
        ensures EntryAt(b.history, s) in b.mem
      {
        if s <= |a.history| {
          assert EntryAt(a.history, s) in a.mem;
        }
      }
    }
    assert NewerThan(b.mem, ImmEntries(b) + AllEntries(b.levels)) by {
      forall y | y in ImmEntries(b) + AllEntries(b.levels)
        ensures y.seqno <= |a.history|
      {
        assert y in Live(a);
      }
    }
  }

  lemma {:induction false} PublishKeeps(a: Db, b: Db)
    requires Inv(a) && PublishStep(a, b)
    ensures Inv(b)
  {
    forall user, s | b.floor <= s <= b.published
      ensures ReadsRight(Live(b), b.history, user, s)
    {
      assert forall i | a.published < i <= |a.history| :: EntryAt(a.history, i) in Live(a);
      PublishReads(Live(a), a.history, a.floor, a.published, user, s);
    }
  }

  lemma {:induction false} SwitchKeeps(a: Db, b: Db)
    requires Inv(a) && SwitchStep(a, b)
    ensures Inv(b)
  {
    assert Live(b) == Live(a);
    assert ImmEntries(a) + AllEntries(a.levels) == AllEntries(a.levels);
  }

  lemma {:induction false} SnapshotKeeps(a: Db, b: Db)
    requires Inv(a) && SnapshotStep(a, b)
    ensures Inv(b)
  {
    assert Live(b) == Live(a);
  }

  lemma {:induction false} ReleaseKeeps(a: Db, b: Db, i: nat)
    requires Inv(a) && ReleaseStep(a, b, i)
    ensures Inv(b)
  {
    assert Live(b) == Live(a);
    forall j | 0 <= j < |b.snapshots|
      ensures b.snapshots[j] == a.snapshots[if j < i then j else j + 1]
    {
    }
  }

  // ---- Levels after an edit ----

  lemma {:induction false} SortedDistinct(fs: seq<File>)
    requires SortedBySmallest(fs)
    requires forall f, g | f in fs && g in fs && f.number == g.number :: f == g
    ensures forall i, j | 0 <= i < j < |fs| :: fs[i].number != fs[j].number
  {
    forall i, j | 0 <= i < j < |fs|
      ensures fs[i].number != fs[j].number
    {
      assert fs[i] in fs && fs[j] in fs && BySmallest(fs[i], fs[j]);
      assert !BySmallest(fs[i], fs[i]);
    }
  }

  /** A level that only lost files. */
  lemma {:induction false} ShrunkLevel(from: seq<File>, to: seq<File>)
    requires SortedBySmallest(to) && forall f | f in to :: f in from
    ensures ValidFiles(from) ==> ValidFiles(to)
    ensures Disjoint(from) ==> Disjoint(to)
    ensures LevelEntries(to) <= LevelEntries(from)
  {
    assert forall i | 0 <= i < |to| :: to[i] in from;
    if Disjoint(from) {
      forall f, g | f in to && g in to && f != g
        ensures Before(f.largest, g.smallest) || Before(g.largest, f.smallest)
      {
        OrderedPair(from, f, g);
      }
      SavedDisjoint(to);
    }
  }

  lemma {:induction false} OrderedPair(fs: seq<File>, f: File, g: File)
    requires Ordered(fs) && f in fs && g in fs && f != g
    ensures Before(f.largest, g.smallest) || Before(g.largest, f.smallest)
  {
    var i :| 0 <= i < |fs| && fs[i] == f;
    var j :| 0 <= j < |fs| && fs[j] == g;
  }

  lemma {:induction false} ShrunkLevelZero(from: seq<File>, to: seq<File>)
    requires SortedBySmallest(to) && (forall f | f in to :: f in from) && NewerByNumber(from)
    ensures NewerByNumber(to)
  {
    forall f, g | f in to && g in to && f.number == g.number
      ensures f == g
    {
      SameNumberSameFile(from, f, g);
    }
    SortedDistinct(to);
  }

  /** Files that move one level down stay newer than everything deeper. */
  lemma {:induction false} LayersAfterMove(from: Levels, to: Levels, level: nat, moved: set<Entry>)
    requires NewerByLevel(from) && |from| == |to| && level + 1 < |from|
    requires forall m | 0 <= m < |to| && m != level + 1 :: LevelEntries(to[m]) <= LevelEntries(from[m])
    requires LevelEntries(to[level + 1]) <= LevelEntries(from[level + 1]) + moved
    requires moved <= LevelEntries(from[level]) && NewerThan(LevelEntries(to[level]), moved)
    ensures NewerByLevel(to)
  {
    forall i, j | 0 <= i < j < |to|
      ensures NewerThan(LevelEntries(to[i]), LevelEntries(to[j]))
    {
      hide LevelEntries;
      assert NewerThan(LevelEntries(from[i]), LevelEntries(from[j]));
      if i == level + 1 {
        assert NewerThan(LevelEntries(from[level]), LevelEntries(from[j]));
      }
      if j == level + 1 && i < level {
        assert NewerThan(LevelEntries(from[i]), LevelEntries(from[level]));
      }
    }
  }

  /** A file left behind is newer, key by key. */
  lemma {:induction false} LeftBehindIsNewer(files: seq<File>, chosen: seq<File>, f: File, g: File, t: Entry, r: Entry)
    requires ValidFiles(files) && Unambiguous(LevelEntries(files)) && LeavesNewer(files, chosen)
    requires f in chosen && f in files && g in files && g !in chosen
    requires t in f.entries && r in g.entries && t.user == r.user
    ensures r.seqno > t.seqno
  {
    FileKeyRange(f, t);
    FileKeyRange(g, r);
    assert t in LevelEntries(files) && r in LevelEntries(files);
    assert Before(r.Key(), t.Key());
  }

  /** The entries of files that a compaction leaves where they are. */
  ghost function Staying(levels: Levels, level: nat, in0: seq<File>, in1: seq<File>): set<Entry> {
    set l, f, e | 0 <= l < |levels| && f in levels[l] && !(l == level && f in in0) && !(l == level + 1 && f in in1)
                  && e in f.entries :: e
  }

  ghost predicate InputsIn(levels: Levels, level: nat, in0: seq<File>, in1: seq<File>) {
    && level + 1 < |levels|
    && (forall f | f in in0 :: f in levels[level])
    && (forall f | f in in1 :: f in levels[level + 1])
  }

  lemma {:induction false} StayingPlusInputs(levels: Levels, level: nat, in0: seq<File>, in1: seq<File>)
    requires InputsIn(levels, level, in0, in1)
    ensures AllEntries(levels) == Staying(levels, level, in0, in1) + InputEntries(in0, in1)
  {
    forall e | e in AllEntries(levels)
      ensures e in Staying(levels, level, in0, in1) + InputEntries(in0, in1)
    {
      var l, f :| 0 <= l < |levels| && f in levels[l] && e in f.entries;
    }
  }

  lemma {:induction false} LayerOrder(levels: Levels, i: nat, j: nat, f: File, g: File, x: Entry, y: Entry)
    requires NewerByLevel(levels) && i < j < |levels| && f in levels[i] && g in levels[j]
    requires x in f.entries && y in g.entries && x.user == y.user
    ensures x.seqno > y.seqno
  {
    LevelEntry(levels, i, f, x);
    LevelEntry(levels, j, g, y);
    assert NewerThan(LevelEntries(levels[i]), LevelEntries(levels[j]));
  }

  lemma {:induction false} DifferentFiles(fs: seq<File>, f: File, g: File, x: Entry, y: Entry)
    requires Disjoint(fs) && f in fs && g in fs && f != g && x in f.entries && y in g.entries
    ensures x != y
  {
    OrderedPair(fs, f, g);
    FileKeyRange(f, x);
    FileKeyRange(g, y);
  }

  /** What staying behind means for entry r of file g at level l, against input entry t. */
  ghost predicate StaysApart(level: nat, l: nat, t: Entry, r: Entry) {
    && (r.seqno > t.seqno || (l == level + 1 && t != r) || l >= level + 2)
    && (l >= level + 2 ==> r.seqno < t.seqno)
  }

  /** An entry that stays, next to an input entry of the same user key: it is newer, or it lies at
      the output level outside the inputs, or deeper. */
  lemma {:induction false} StayingEntry(levels: Levels, level: nat, in0: seq<File>, in1: seq<File>, l: nat, g: File, t: Entry, r: Entry)
    requires VersionOk(levels) && Unambiguous(AllEntries(levels)) && InputsIn(levels, level, in0, in1)
    requires LeavesNewer(levels[level], in0)
    requires l < |levels| && g in levels[l] && !(l == level && g in in0) && !(l == level + 1 && g in in1)
    requires r in g.entries && t in InputEntries(in0, in1) && r.user == t.user
    ensures StaysApart(level, l, t, r)
  {
    if t in LevelEntries(in0) {
      var f :| f in in0 && t in f.entries;
      StayingBesideUpper(levels, level, in0, l, f, g, t, r);
    } else {
      var f :| f in in1 && t in f.entries;
      if l < level + 1 {
        LayerOrder(levels, l, level + 1, g, f, r, t);
      } else if l == level + 1 {
        assert Disjoint(levels[l]);
        DifferentFiles(levels[l], f, g, t, r);
      } else {
        LayerOrder(levels, level + 1, l, f, g, t, r);
      }
    }
  }

  lemma {:induction false} StayingBesideUpper(levels: Levels, level: nat, in0: seq<File>, l: nat, f: File, g: File, t: Entry, r: Entry)
    requires VersionOk(levels) && Unambiguous(AllEntries(levels)) && level + 1 < |levels|
    requires LeavesNewer(levels[level], in0) && f in in0 && f in levels[level]
    requires l < |levels| && g in levels[l] && !(l == level && g in in0)
    requires r in g.entries && t in f.entries && r.user == t.user
    ensures if l <= level then r.seqno > t.seqno else r.seqno < t.seqno
  {
    if l < level {
      LayerOrder(levels, l, level, g, f, r, t);
    } else if l == level {
      UnambiguousLevel(levels, level);
      ValidLevel(levels, level);
      LeftBehindIsNewer(levels[level], in0, f, g, t, r);
    } else {
      LayerOrder(levels, level, l, f, g, t, r);
    }
  }

  lemma {:induction false} ValidLevel(levels: Levels, l: nat)
    requires VersionOk(levels) && l < |levels|
    ensures ValidFiles(levels[l])
  {
    if l > 0 {
      assert Disjoint(levels[l]);
    }
  }

  lemma {:induction false} UnambiguousLevel(levels: Levels, l: nat)
    requires Unambiguous(AllEntries(levels)) && l < |levels|
    ensures Unambiguous(LevelEntries(levels[l]))
  {
    forall e | e in LevelEntries(levels[l])
      ensures e in AllEntries(levels)
    {
      var f :| f in levels[l] && e in f.entries;
      LevelEntry(levels, l, f, e);
    }
  }
}
