/**
 * A version of the table files, level by level, and the search through it
 * (db/version_set.cc: FindFile, SomeFileOverlapsRange, Version::Get).
 */
module Versions {
  import opened Basics
  import opened InternalKeys

  /** A table file (FileMetaData and its contents): smallest and largest are the first and the
      last key written to it. */
  datatype File = File(number: nat, size: nat, smallest: IKey, largest: IKey, entries: seq<Entry>) {
    predicate Valid() {
      && |entries| > 0
      && SortedEntries(entries)
      && smallest == entries[0].Key()
      && largest == entries[|entries| - 1].Key()
    }
  }

  type Levels = seq<seq<File>>

  predicate ValidFiles(fs: seq<File>) {
    forall i | 0 <= i < |fs| :: fs[i].Valid()
  }

  predicate Spans(fs: seq<File>) {
    forall i | 0 <= i < |fs| :: !Before(fs[i].largest, fs[i].smallest)
  }

  /** Ranges that follow one another, as in every level but level 0. */
  predicate Ordered(fs: seq<File>) {
    && Spans(fs)
    && forall i, j | 0 <= i < j < |fs| :: Before(fs[i].largest, fs[j].smallest)
  }

  predicate Disjoint(fs: seq<File>) {
    ValidFiles(fs) && Ordered(fs)
  }

  ghost function FileEntries(f: File): set<Entry> {
    EntrySet(f.entries)
  }

  ghost function LevelEntries(fs: seq<File>): set<Entry> {
    set f, e | f in fs && e in f.entries :: e
  }

  /** The entries at levels l and deeper. */
  ghost function DeeperEntries(levels: Levels, l: nat): set<Entry> {
    set j, f, e | l <= j < |levels| && f in levels[j] && e in f.entries :: e
  }

  ghost function AllEntries(levels: Levels): set<Entry> {
    DeeperEntries(levels, 0)
  }

  /** Level-0 files may overlap, but a file with a larger number holds only newer versions. */
  ghost predicate NewerByNumber(fs: seq<File>) {
    && (forall f, g | f in fs && g in fs && f.number > g.number ::
          NewerThan(FileEntries(f), FileEntries(g)))
    && (forall i, j | 0 <= i < j < |fs| :: fs[i].number != fs[j].number)
  }

  /** Entries never hop across levels: a shallower level holds only newer versions. */
  ghost predicate NewerByLevel(levels: Levels) {
    forall i, j | 0 <= i < j < |levels| :: NewerThan(LevelEntries(levels[i]), LevelEntries(levels[j]))
  }

  ghost predicate VersionOk(levels: Levels) {
    && |levels| == NUM_LEVELS
    && ValidFiles(levels[0])
    && (forall l | 1 <= l < |levels| :: Disjoint(levels[l]))
    && NewerByNumber(levels[0])
    && NewerByLevel(levels)
  }

  lemma {:induction false} FileKeyRange(f: File, e: Entry)
    requires f.Valid() && e in f.entries
    ensures e.Key() == f.smallest || Before(f.smallest, e.Key())
    ensures e.Key() == f.largest || Before(e.Key(), f.largest)
    ensures f.smallest.user <= e.user <= f.largest.user
  {
    var i :| 0 <= i < |f.entries| && f.entries[i] == e;
  }

  lemma {:induction false} ValidSpans(fs: seq<File>)
    requires ValidFiles(fs)
    ensures Spans(fs)
  {
    forall f | f in fs
      ensures !Before(f.largest, f.smallest)
    {
      FileKeyRange(f, f.entries[0]);
    }
  }

  /** The binary search over a sorted level: the first file whose largest key is not before key. */
  method FindFile(files: seq<File>, key: IKey) returns (right: nat)
    requires Ordered(files)
    ensures right <= |files|
    ensures forall i | 0 <= i < right :: Before(files[i].largest, key)
    ensures forall i | right <= i < |files| :: !Before(files[i].largest, key)
  {
    var left := 0;
    right := |files|;
    while left < right
      invariant left <= right <= |files|
      invariant forall i | 0 <= i < left :: Before(files[i].largest, key)
      invariant forall i | right <= i < |files| :: !Before(files[i].largest, key)
    {
      var mid := (left + right) / 2;
      if Before(files[mid].largest, key) {
        assert files[mid] in files;
        left := mid + 1;
      } else {
        assert forall i | mid < i < right :: files[i] in files;
        right := mid;
      }
    }
  }

  /** Whether the user-key interval [lo, hi] (an absent bound is infinite) meets the file's range. */
  predicate Overlaps(f: File, lo: Option<UserKey>, hi: Option<UserKey>) {
    && (lo.Some? ==> lo.value <= f.largest.user)
    && (hi.Some? ==> f.smallest.user <= hi.value)
  }

  method SomeFileOverlapsRange(disjointSortedFiles: bool, files: seq<File>, lo: Option<UserKey>, hi: Option<UserKey>)
    returns (r: bool)
    requires disjointSortedFiles ==> Ordered(files)
    requires forall f | f in files :: f.largest.seqno <= MAX_SEQUENCE && f.largest.kind <= 1
    ensures r <==> exists f :: f in files && Overlaps(f, lo, hi)
  {
    if !disjointSortedFiles {
      for i := 0 to |files|
        invariant forall j | 0 <= j < i :: !Overlaps(files[j], lo, hi)
      {
        if Overlaps(files[i], lo, hi) {
          return true;
        }
      }
      return false;
    }
    var index := 0;
    if lo.Some? {
      index := FindFile(files, IKey(lo.value, MAX_SEQUENCE, 1));
    }
    if index >= |files| {
      assert forall i | 0 <= i < |files| :: !Overlaps(files[i], lo, hi);
      return false;
    }
    r := !(hi.Some? && hi.value < files[index].smallest.user);
    assert forall i | 0 <= i < |files| :: files[i] in files;
    if r {
      assert Overlaps(files[index], lo, hi);
    } else {
      assert forall i | 0 <= i < |files| :: !Overlaps(files[i], lo, hi);
    }
  }

  function LastEntry(f: File): (e: Entry)
    requires f.Valid()
    ensures e in f.entries && e.Key() == f.largest
  {
    f.entries[|f.entries| - 1]
  }

  /** A visible version in a sorted level lies in the file FindFile picks, or that file's last
      entry is a visible version at least as new. */
  lemma {:induction false} VisibleEntryLocation(fs: seq<File>, index: nat, user: UserKey, s: Sequence, e: Entry)
    requires Disjoint(fs) && index <= |fs|
    requires forall i | 0 <= i < index :: Before(fs[i].largest, LookupKey(user, s))
    requires forall i | index <= i < |fs| :: !Before(fs[i].largest, LookupKey(user, s))
    requires e in LevelEntries(fs) && e.user == user && e.seqno <= s
    ensures index < |fs|
    ensures e in fs[index].entries
         || (var g := LastEntry(fs[index]); g.user == user && e.seqno <= g.seqno <= s)
  {
    var f :| f in fs && e in f.entries;
    var j :| 0 <= j < |fs| && fs[j] == f;
    FileKeyRange(f, e);
    LookupKeySplits(user, s, e);
    LookupKeySplits(user, s, LastEntry(f));
    if j > index {
      LookupKeySplits(user, s, LastEntry(fs[index]));
    }
  }

  /** In a sorted level only the file FindFile picks can decide a lookup. */
  lemma {:induction false} LevelProbe(fs: seq<File>, index: nat, user: UserKey, s: Sequence)
    requires Disjoint(fs) && index <= |fs|
    requires forall i | 0 <= i < index :: Before(fs[i].largest, LookupKey(user, s))
    requires forall i | index <= i < |fs| :: !Before(fs[i].largest, LookupKey(user, s))
    ensures index == |fs| || user < fs[index].smallest.user ==> NoneVisible(LevelEntries(fs), user, s)
    ensures index < |fs| ==> Answers(LevelEntries(fs), user, s, SourceGet(fs[index].entries, user, s))
  {
    forall e | e in LevelEntries(fs) && e.user == user && e.seqno <= s
      ensures index < |fs| && fs[index].smallest.user <= user
      ensures exists x :: x in FileEntries(fs[index]) && x.user == user && e.seqno <= x.seqno <= s
    {
      VisibleEntryLocation(fs, index, user, s, e);
      var x := if e in fs[index].entries then e else LastEntry(fs[index]);
      FileKeyRange(fs[index], x);
      assert x in FileEntries(fs[index]);
    }
    if index < |fs| {
      assert fs[index] in fs;
      SourceGetAnswers(fs[index].entries, user, s);
      var p := SourceGet(fs[index].entries, user, s);
      if !p.Absent? {
        var e :| Newest(FileEntries(fs[index]), user, s, e) && p == Outcome(e.op);
        assert Newest(LevelEntries(fs), user, s, e);
      }
    }
  }

  predicate CoversUser(f: File, user: UserKey) {
    f.smallest.user <= user <= f.largest.user
  }

  function InsertNewest(fs: seq<File>, f: File): (r: seq<File>)
    ensures forall g :: g in r <==> g == f || g in fs
    ensures |r| == |fs| + 1
  {
    if fs == [] || f.number >= fs[0].number then [f] + fs
    else [fs[0]] + InsertNewest(fs[1..], f)
  }

  predicate NewestFirst(fs: seq<File>) {
    forall i, j | 0 <= i < j < |fs| :: fs[i].number >= fs[j].number
  }

  lemma {:induction false} InsertNewestSorted(fs: seq<File>, f: File)
    requires NewestFirst(fs)
    ensures NewestFirst(InsertNewest(fs, f))
  {
    if fs != [] && f.number < fs[0].number {
      InsertNewestSorted(fs[1..], f);
      var r := InsertNewest(fs[1..], f);
      assert forall i | 0 <= i < |r| :: r[i] in r && (r[i] == f || r[i] in fs[1..]);
      assert forall g | g in fs[1..] :: exists i :: 1 <= i < |fs| && fs[i] == g;
    }
  }

  /** The level-0 files that cover user, newest first. */
  method CoveringNewestFirst(files: seq<File>, user: UserKey) returns (tmp: seq<File>)
    ensures forall f :: f in tmp <==> f in files && CoversUser(f, user)
    ensures NewestFirst(tmp)
  {
    tmp := [];
    for i := 0 to |files|
      invariant forall f | f in tmp :: f in files
      invariant forall f :: f in tmp <==> f in files[..i] && CoversUser(f, user)
      invariant NewestFirst(tmp)
    {
      assert files[..i + 1] == files[..i] + [files[i]];
      if CoversUser(files[i], user) {
        InsertNewestSorted(tmp, files[i]);
        tmp := InsertNewest(tmp, files[i]);
      }
    }
    assert files[..|files|] == files;
  }

  /** Searching the covering level-0 files newest first, stopping at the first hit. */
  method GetLevelZero(files: seq<File>, user: UserKey, s: Sequence) returns (p: Probe)
    requires ValidFiles(files) && NewerByNumber(files)
    ensures Answers(LevelEntries(files), user, s, p)
  {
    var tmp := CoveringNewestFirst(files, user);
    for i := 0 to |tmp|
      invariant forall j | 0 <= j < i :: NoneVisible(FileEntries(tmp[j]), user, s)
    {
      assert tmp[i] in tmp && tmp[i] in files;
      SourceGetAnswers(tmp[i].entries, user, s);
      p := SourceGet(tmp[i].entries, user, s);
      if !p.Absent? {
        LevelZeroHit(files, tmp, i, user, s, p);
        return p;
      }
    }
    forall e | e in LevelEntries(files) && e.user == user
      ensures e.seqno > s
    {
      var f :| f in files && e in f.entries;
      FileKeyRange(f, e);
      assert f in tmp;
    }
    p := Absent;
  }

  lemma {:induction false} LevelZeroHit(files: seq<File>, tmp: seq<File>, i: nat, user: UserKey, s: Sequence, p: Probe)
    requires ValidFiles(files) && NewerByNumber(files) && NewestFirst(tmp) && i < |tmp|
    requires forall f :: f in tmp <==> f in files && CoversUser(f, user)
    requires forall j | 0 <= j < i :: NoneVisible(FileEntries(tmp[j]), user, s)
    requires !p.Absent? && Answers(FileEntries(tmp[i]), user, s, p)
    ensures Answers(LevelEntries(files), user, s, p)
  {
    var e :| Newest(FileEntries(tmp[i]), user, s, e) && p == Outcome(e.op);
    assert tmp[i] in tmp && tmp[i] in files;
    forall x | x in LevelEntries(files) && x.user == user && x.seqno <= s
      ensures x.seqno <= e.seqno
    {
      var f :| f in files && x in f.entries;
      FileKeyRange(f, x);
      assert f in tmp;
      var j :| 0 <= j < |tmp| && tmp[j] == f;
      assert x in FileEntries(f);
      if j >= i && f != tmp[i] {
        NewerEntry(files, tmp[i], f, e, x);
      }
    }
    assert Newest(LevelEntries(files), user, s, e);
  }

  lemma {:induction false} NewerEntry(files: seq<File>, f: File, g: File, a: Entry, b: Entry)
    requires NewerByNumber(files) && f in files && g in files && f.number >= g.number && f != g
    requires a in f.entries && b in g.entries && a.user == b.user
    ensures a.seqno > b.seqno
  {
    if f.number == g.number {
      SameNumberSameFile(files, f, g);
    }
    assert NewerThan(FileEntries(f), FileEntries(g));
    assert a in FileEntries(f) && b in FileEntries(g);
  }

  lemma {:induction false} SameNumberSameFile(files: seq<File>, f: File, g: File)
    requires NewerByNumber(files) && f in files && g in files && f.number == g.number
    ensures f == g
  {
    var i :| 0 <= i < |files| && files[i] == f;
    var j :| 0 <= j < |files| && files[j] == g;
  }

  /** Version::Get: level by level, and the first level with a visible version decides. */
  method Get(levels: Levels, user: UserKey, s: Sequence) returns (p: Probe)
    requires VersionOk(levels)
    ensures Answers(AllEntries(levels), user, s, p)
  {
    p := Absent;
    for level := 0 to NUM_LEVELS
      invariant forall j | 0 <= j < level :: NoneVisible(LevelEntries(levels[j]), user, s)
    {
      p := Absent;
      if |levels[level]| == 0 {
        continue;
      }
      if level == 0 {
        p := GetLevelZero(levels[0], user, s);
      } else {
        var index := FindFile(levels[level], LookupKey(user, s));
        LevelProbe(levels[level], index, user, s);
        if index < |levels[level]| && user >= levels[level][index].smallest.user {
          p := SourceGet(levels[level][index].entries, user, s);
        }
      }
      assert Answers(LevelEntries(levels[level]), user, s, p);
      if !p.Absent? {
        LevelHit(levels, level, user, s, p);
        return;
      }
    }
    p := Absent;
    forall e | e in AllEntries(levels) && e.user == user
      ensures e.seqno > s
    {
      var j, f :| 0 <= j < |levels| && f in levels[j] && e in f.entries;
      assert e in LevelEntries(levels[j]);
    }
  }

  lemma {:induction false} LevelHit(levels: Levels, level: nat, user: UserKey, s: Sequence, p: Probe)
    requires NewerByLevel(levels) && level < |levels|
    requires forall j | 0 <= j < level :: NoneVisible(LevelEntries(levels[j]), user, s)
    requires !p.Absent? && Answers(LevelEntries(levels[level]), user, s, p)
    ensures Answers(AllEntries(levels), user, s, p)
  {
    var e :| Newest(LevelEntries(levels[level]), user, s, e) && p == Outcome(e.op);
    forall x | x in AllEntries(levels) && x.user == user && x.seqno <= s
      ensures x.seqno <= e.seqno
    {
      var j, f :| 0 <= j < |levels| && f in levels[j] && x in f.entries;
      assert x in LevelEntries(levels[j]);
      if j > level {
        assert NewerThan(LevelEntries(levels[level]), LevelEntries(levels[j]));
      }
    }
    assert Newest(AllEntries(levels), user, s, e);
  }
}
