/**
 * Choosing files: overlap queries, boundary files and the inputs of a compaction
 * (db/version_set.cc: GetOverlappingInputs, AddBoundaryInputs, SetupOtherInputs, PickCompaction,
 * CompactRange, PickLevelForMemTableOutput).
 */
module Inputs {
  import opened Basics
  import opened InternalKeys
  import opened Versions

  const MAX_MEM_COMPACT_LEVEL: nat := 2

  type Bound = Option<UserKey>

  function Overlapping(files: seq<File>, lo: Bound, hi: Bound): (r: seq<File>)
    ensures forall f :: f in r <==> f in files && Overlaps(f, lo, hi)
  {
    var meets := (f: File) => Overlaps(f, lo, hi);
    assert forall f :: f in Filter(files, meets) <==> f in files && meets(f) by {
      forall f: File { FilterMember(files, meets, f); }
    }
    Filter(files, meets)
  }

  predicate Within(f: File, lo: Bound, hi: Bound) {
    && (lo.Some? ==> lo.value <= f.smallest.user)
    && (hi.Some? ==> f.largest.user <= hi.value)
  }

  /** [lo2, hi2] contains [lo, hi] and is unbounded exactly where [lo, hi] is. */
  predicate Widens(lo2: Bound, hi2: Bound, lo: Bound, hi: Bound) {
    && lo2.Some? == lo.Some? && (lo.Some? ==> lo2.value <= lo.value)
    && hi2.Some? == hi.Some? && (hi.Some? ==> hi2.value >= hi.value)
  }

  /** No file sticks out of the range it overlaps. */
  ghost predicate ClosedRange(files: seq<File>, lo: Bound, hi: Bound) {
    forall f | f in files && Overlaps(f, lo, hi) :: Within(f, lo, hi)
  }

  ghost function StartingBelow(files: seq<File>, lo: Bound): set<int> {
    set j | 0 <= j < |files| && lo.Some? && files[j].smallest.user < lo.value
  }

  ghost function EndingAbove(files: seq<File>, hi: Bound): set<int> {
    set j | 0 <= j < |files| && hi.Some? && files[j].largest.user > hi.value
  }

  /** Every closed range around [begin, end] contains [lo, hi]. */
  ghost predicate InEveryClosedRange(files: seq<File>, begin: Bound, end: Bound, lo: Bound, hi: Bound) {
    forall lo2, hi2 :: ClosedRange(files, lo2, hi2) && Widens(lo2, hi2, begin, end) ==> Widens(lo2, hi2, lo, hi)
  }

  lemma {:induction false} WidenOver(files: seq<File>, begin: Bound, end: Bound, lo: Bound, hi: Bound, f: File)
    requires f in files && Overlaps(f, lo, hi) && InEveryClosedRange(files, begin, end, lo, hi)
    ensures lo.Some? && f.smallest.user < lo.value ==>
              InEveryClosedRange(files, begin, end, Some(f.smallest.user), hi)
    ensures hi.Some? && f.largest.user > hi.value ==>
              InEveryClosedRange(files, begin, end, lo, Some(f.largest.user))
  {
    forall lo2, hi2 | ClosedRange(files, lo2, hi2) && Widens(lo2, hi2, begin, end)
      ensures Widens(lo2, hi2, lo, hi) && Within(f, lo2, hi2)
    {
      assert Overlaps(f, lo2, hi2);
    }
  }

  lemma {:induction false} OverlappingAppend(files: seq<File>, i: nat, lo: Bound, hi: Bound)
    requires i < |files|
    ensures Overlapping(files[..i + 1], lo, hi)
         == Overlapping(files[..i], lo, hi) + (if Overlaps(files[i], lo, hi) then [files[i]] else [])
  {
    assert files[..i + 1] == files[..i] + [files[i]];
    FilterAppend(files[..i], files[i], (f: File) => Overlaps(f, lo, hi));
  }

  /**
   * Below level 0 the files that overlap [begin, end]. At level 0 the search restarts whenever a
   * file widens the range; it ends with the least range that no overlapping file sticks out of.
   */
  method GetOverlappingInputs(files: seq<File>, levelZero: bool, begin: Bound, end: Bound)
    returns (inputs: seq<File>, ghost lo: Bound, ghost hi: Bound)
    ensures inputs == Overlapping(files, lo, hi)
    ensures !levelZero ==> lo == begin && hi == end
    ensures levelZero ==> Widens(lo, hi, begin, end) && ClosedRange(files, lo, hi)
    ensures levelZero ==> InEveryClosedRange(files, begin, end, lo, hi)
  {
    var userBegin, userEnd := begin, end;
    var i := 0;
    inputs := [];
    while i < |files|
      invariant 0 <= i <= |files|
      invariant inputs == Overlapping(files[..i], userBegin, userEnd)
      invariant !levelZero ==> userBegin == begin && userEnd == end
      invariant levelZero ==> Widens(userBegin, userEnd, begin, end)
      invariant levelZero ==> forall j | 0 <= j < i && Overlaps(files[j], userBegin, userEnd) :: Within(files[j], userBegin, userEnd)
      invariant levelZero ==> InEveryClosedRange(files, begin, end, userBegin, userEnd)
      decreases StartingBelow(files, userBegin), EndingAbove(files, userEnd), |files| - i
    {
      var f := files[i];
      OverlappingAppend(files, i, userBegin, userEnd);
      if userBegin.Some? && f.largest.user < userBegin.value {
        i := i + 1;
      } else if userEnd.Some? && f.smallest.user > userEnd.value {
        i := i + 1;
      } else {
        if levelZero {
          WidenOver(files, begin, end, userBegin, userEnd, f);
        }
        if levelZero && userBegin.Some? && f.smallest.user < userBegin.value {
          assert i in StartingBelow(files, userBegin) && i !in StartingBelow(files, Some(f.smallest.user));
          userBegin := Some(f.smallest.user);
          inputs, i := [], 0;
        } else if levelZero && userEnd.Some? && f.largest.user > userEnd.value {
          assert i in EndingAbove(files, userEnd) && i !in EndingAbove(files, Some(f.largest.user));
          userEnd := Some(f.largest.user);
          inputs, i := [], 0;
        } else {
          inputs := inputs + [f];
          i := i + 1;
        }
      }
    }
    assert files[..|files|] == files;
    lo, hi := userBegin, userEnd;
  }

  /** smallest and largest are the extreme keys of the files in inputs. */
  ghost predicate IsRange(inputs: seq<File>, smallest: IKey, largest: IKey) {
    && (exists f :: f in inputs && f.smallest == smallest)
    && (exists f :: f in inputs && f.largest == largest)
    && (forall f | f in inputs :: !Before(f.smallest, smallest) && !Before(largest, f.largest))
  }

  lemma {:induction false} ExtendRange(files: seq<File>, f: File, smallest: IKey, largest: IKey)
    requires IsRange(files, smallest, largest) && !Before(f.largest, f.smallest)
    ensures IsRange(files + [f], if Before(f.smallest, smallest) then f.smallest else smallest,
                    if Before(largest, f.largest) then f.largest else largest)
  {
    assert f in files + [f];
    assert forall g | g in files :: g in files + [f];
  }

  method GetRange(inputs: seq<File>) returns (smallest: IKey, largest: IKey)
    requires |inputs| > 0 && Spans(inputs)
    ensures IsRange(inputs, smallest, largest)
  {
    smallest, largest := inputs[0].smallest, inputs[0].largest;
    assert inputs[..1] == [inputs[0]] && inputs[0] in [inputs[0]];
    for i := 1 to |inputs|
      invariant IsRange(inputs[..i], smallest, largest)
    {
      var f := inputs[i];
      ExtendRange(inputs[..i], f, smallest, largest);
      assert inputs[..i + 1] == inputs[..i] + [f];
      if Before(f.smallest, smallest) {
        smallest := f.smallest;
      }
      if Before(largest, f.largest) {
        largest := f.largest;
      }
    }
    assert inputs[..|inputs|] == inputs;
  }

  predicate IsBoundary(f: File, largest: IKey) {
    Before(largest, f.smallest) && f.smallest.user == largest.user
  }

  /** The boundary file with the smallest first key, if there is one. */
  method FindSmallestBoundaryFile(levelFiles: seq<File>, largest: IKey) returns (r: Option<File>)
    requires Spans(levelFiles)
    ensures r.None? ==> forall f | f in levelFiles :: !IsBoundary(f, largest)
    ensures r.Some? ==> r.value in levelFiles && IsBoundary(r.value, largest)
    ensures r.Some? ==> forall f | f in levelFiles && IsBoundary(f, largest) :: !Before(f.smallest, r.value.smallest)
  {
    r := None;
    for i := 0 to |levelFiles|
      invariant r.None? ==> forall j | 0 <= j < i :: !IsBoundary(levelFiles[j], largest)
      invariant r.Some? ==> r.value in levelFiles && IsBoundary(r.value, largest)
      invariant r.Some? ==> forall j | 0 <= j < i && IsBoundary(levelFiles[j], largest) ::
                              !Before(levelFiles[j].smallest, r.value.smallest)
    {
      var f := levelFiles[i];
      if IsBoundary(f, largest) {
        if r.None? || Before(f.smallest, r.value.smallest) {
          r := Some(f);
        }
      }
    }
  }

  ghost predicate Slice(fs: seq<File>, r: seq<File>, a: nat) {
    a + |r| <= |fs| && forall i | 0 <= i < |r| :: r[i] == fs[a + i]
  }

  lemma {:induction false} SubsetSpans(fs: seq<File>, r: seq<File>)
    requires Spans(fs) && forall f | f in r :: f in fs
    ensures Spans(r)
  {
    forall i | 0 <= i < |r|
      ensures !Before(r[i].largest, r[i].smallest)
    {
      assert r[i] in fs;
    }
  }

  ghost predicate HasLargest(files: seq<File>, largest: IKey) {
    && (exists f :: f in files && f.largest == largest)
    && (forall f | f in files :: !Before(largest, f.largest))
  }

  /**
   * Extends compactionFiles with boundary files until none is left: no file of the level starts
   * after the largest chosen key with that key's user key. In a sorted level a contiguous choice
   * stays contiguous.
   */
  method AddBoundaryInputs(levelFiles: seq<File>, compactionFiles: seq<File>, ghost a: nat)
    returns (r: seq<File>, ghost largest: IKey)
    requires Spans(levelFiles) && Spans(compactionFiles) && |compactionFiles| > 0
    ensures compactionFiles <= r && forall f | f in r[|compactionFiles|..] :: f in levelFiles
    ensures Spans(r) && HasLargest(r, largest)
    ensures forall f | f in levelFiles :: !IsBoundary(f, largest)
    ensures BoundaryFree(levelFiles, compactionFiles) ==> r == compactionFiles
    ensures Ordered(levelFiles) && Slice(levelFiles, compactionFiles, a) ==> Slice(levelFiles, r, a)
  {
    hide Slice, BoundaryFree;
    var smallest0, largestKey := GetRange(compactionFiles);
    r := compactionFiles;
    var continueSearching := true;
    while continueSearching
      invariant compactionFiles <= r && forall f | f in r[|compactionFiles|..] :: f in levelFiles
      invariant Spans(r) && HasLargest(r, largestKey)
      invariant !continueSearching ==> forall f | f in levelFiles :: !IsBoundary(f, largestKey)
      invariant BoundaryFree(levelFiles, compactionFiles) ==> r == compactionFiles
      invariant Ordered(levelFiles) && Slice(levelFiles, compactionFiles, a) ==> Slice(levelFiles, r, a)
      decreases continueSearching, StartingAfter(levelFiles, largestKey)
    {
      var b := FindSmallestBoundaryFile(levelFiles, largestKey);
      if b.Some? {
        OneMoreBoundary(levelFiles, compactionFiles, r, a, largestKey, b.value);
        StartingAfterShrinks(levelFiles, largestKey, b.value);
        r := r + [b.value];
        largestKey := b.value.largest;
      } else {
        continueSearching := false;
      }
    }
    largest := largestKey;
  }

  lemma {:induction false} NotBoundaryFree(levelFiles: seq<File>, r: seq<File>, largest: IKey, b: File)
    requires HasLargest(r, largest) && b in levelFiles && IsBoundary(b, largest)
    ensures !BoundaryFree(levelFiles, r)
  {
  }

  lemma {:induction false} OneMoreBoundary(levelFiles: seq<File>, first: seq<File>, r: seq<File>, a: nat, largest: IKey, b: File)
    requires Spans(levelFiles) && Spans(r) && first <= r && HasLargest(r, largest)
    requires forall f | f in r[|first|..] :: f in levelFiles
    requires b in levelFiles && IsBoundary(b, largest)
    requires forall f | f in levelFiles && IsBoundary(f, largest) :: !Before(f.smallest, b.smallest)
    requires BoundaryFree(levelFiles, first) ==> r == first
    requires Ordered(levelFiles) && Slice(levelFiles, first, a) ==> Slice(levelFiles, r, a)
    ensures first <= r + [b] && Spans(r + [b]) && HasLargest(r + [b], b.largest) && !BoundaryFree(levelFiles, first)
    ensures forall f | f in (r + [b])[|first|..] :: f in levelFiles
    ensures Ordered(levelFiles) && Slice(levelFiles, first, a) ==> Slice(levelFiles, r + [b], a)
  {
    hide BoundaryFree;
    NotBoundaryFree(levelFiles, r, largest, b);
    if Ordered(levelFiles) && Slice(levelFiles, first, a) {
      NextInSlice(levelFiles, r, a, largest, b);
    }
    ExtendLargest(r, b, largest);
    assert (r + [b])[|first|..] == r[|first|..] + [b];
  }

  ghost function StartingAfter(files: seq<File>, key: IKey): set<int> {
    set j | 0 <= j < |files| && Before(key, files[j].smallest)
  }

  lemma {:induction false} StartingAfterShrinks(files: seq<File>, key: IKey, b: File)
    requires b in files && Before(key, b.smallest) && !Before(b.largest, b.smallest)
    ensures StartingAfter(files, b.largest) < StartingAfter(files, key)
  {
    var j :| 0 <= j < |files| && files[j] == b;
    assert j in StartingAfter(files, key) && j !in StartingAfter(files, b.largest);
  }

  /** No file of the level is a boundary file of the largest key in files. */
  ghost predicate BoundaryFree(levelFiles: seq<File>, files: seq<File>) {
    forall largest, g | HasLargest(files, largest) && g in levelFiles :: !IsBoundary(g, largest)
  }

  lemma {:induction false} ExtendLargest(r: seq<File>, b: File, largest: IKey)
    requires Spans(r) && HasLargest(r, largest) && !Before(b.largest, b.smallest) && IsBoundary(b, largest)
    ensures Spans(r + [b]) && HasLargest(r + [b], b.largest)
  {
    assert b in r + [b];
  }

  lemma {:induction false} NextInSlice(fs: seq<File>, r: seq<File>, a: nat, largest: IKey, b: File)
    requires Ordered(fs) && Slice(fs, r, a) && HasLargest(r, largest)
    requires b in fs && IsBoundary(b, largest)
    requires forall f | f in fs && IsBoundary(f, largest) :: !Before(f.smallest, b.smallest)
    ensures Slice(fs, r + [b], a)
  {
    var c := a + |r|;
    LastOfSlice(fs, r, a, largest);
    assert r[|r| - 1] == fs[c - 1];
    var j :| 0 <= j < |fs| && fs[j] == b;
    assert fs[c - 1] in fs && b in fs;
    assert j >= c;
    BoundaryBetween(fs, c, j, largest);
  }

  /** Between the last chosen file and a boundary file there are only boundary files. */
  lemma {:induction false} BoundaryBetween(fs: seq<File>, c: nat, j: nat, largest: IKey)
    requires Ordered(fs) && 0 < c <= j < |fs| && IsBoundary(fs[j], largest)
    requires !Before(fs[c - 1].largest, largest) && !Before(largest, fs[c - 1].largest)
    ensures fs[c] in fs && IsBoundary(fs[c], largest)
    ensures c < j ==> Before(fs[c].smallest, fs[j].smallest)
  {
    if c < j {
      assert Before(fs[c - 1].largest, fs[c].smallest) && Before(fs[c].largest, fs[j].smallest);
      assert fs[c] in fs;
    }
  }

  lemma {:induction false} LastOfSlice(fs: seq<File>, r: seq<File>, a: nat, largest: IKey)
    requires Ordered(fs) && Slice(fs, r, a) && HasLargest(r, largest)
    ensures |r| > 0 && !Before(r[|r| - 1].largest, largest) && !Before(largest, r[|r| - 1].largest)
  {
    var f :| f in r && f.largest == largest;
    var i :| 0 <= i < |r| && r[i] == f;
    var last := r[|r| - 1];
    assert fs[a + i] == f && fs[a + |r| - 1] == last && last in r && last in fs;
  }

  /** A file left behind that shares a user key with a chosen one holds the newer versions. */
  predicate LeavesNewer(files: seq<File>, chosen: seq<File>) {
    forall f, g | f in chosen && g in files && g !in chosen ::
      Before(g.largest, f.smallest) || f.largest.user < g.smallest.user
  }

  predicate OverlapClosed(files: seq<File>, chosen: seq<File>) {
    forall f, g | f in chosen && g in files && g !in chosen ::
      g.largest.user < f.smallest.user || f.largest.user < g.smallest.user
  }

  lemma {:induction false} ClosedRangeIsOverlapClosed(files: seq<File>, lo: Bound, hi: Bound)
    requires ClosedRange(files, lo, hi)
    ensures OverlapClosed(files, Overlapping(files, lo, hi))
  {
  }

  lemma {:induction false} OverlapClosedIsBoundaryFree(files: seq<File>, chosen: seq<File>)
    requires Spans(files) && Spans(chosen) && OverlapClosed(files, chosen)
    ensures BoundaryFree(files, chosen)
  {
    forall largest, g | HasLargest(chosen, largest) && g in files
      ensures !IsBoundary(g, largest)
    {
      var f :| f in chosen && f.largest == largest;
    }
  }

  lemma {:induction false} SliceLeavesNewer(fs: seq<File>, r: seq<File>, a: nat, largest: IKey)
    requires Ordered(fs) && Slice(fs, r, a) && HasLargest(r, largest)
    requires forall f | f in fs :: !IsBoundary(f, largest)
    ensures LeavesNewer(fs, r)
  {
    LastOfSlice(fs, r, a, largest);
    var c := a + |r|;
    assert r[|r| - 1] == fs[c - 1];
    forall k | a <= k < c
      ensures fs[k] in r
    {
      assert r[k - a] == fs[k];
    }
    forall f, g | f in r && g in fs && g !in r
      ensures Before(g.largest, f.smallest) || f.largest.user < g.smallest.user
    {
      var i :| 0 <= i < |r| && r[i] == f;
      var j :| 0 <= j < |fs| && fs[j] == g;
      assert fs[a + i] == f;
      if j >= c {
        assert !IsBoundary(g, largest) && Before(fs[c - 1].largest, g.smallest);
        assert fs[c - 1] in fs;
      }
    }
  }

  /** In a sorted level the files that overlap a range are contiguous. */
  lemma {:induction false} OverlappingIsSlice(fs: seq<File>, lo: Bound, hi: Bound) returns (a: nat)
    requires Ordered(fs)
    ensures Slice(fs, Overlapping(fs, lo, hi), a)
  {
    a := 0;
    while a < |fs| && lo.Some? && fs[a].largest.user < lo.value
      invariant a <= |fs|
      invariant forall i | 0 <= i < a :: !Overlaps(fs[i], lo, hi)
    {
      a := a + 1;
    }
    var b := a;
    while b < |fs| && !(hi.Some? && hi.value < fs[b].smallest.user)
      invariant a <= b <= |fs|
      invariant forall i | a <= i < b :: Overlaps(fs[i], lo, hi)
    {
      b := b + 1;
    }
    forall i | b <= i < |fs|
      ensures !Overlaps(fs[i], lo, hi)
    {
      assert i > b ==> Before(fs[b].largest, fs[i].smallest);
    }
    StretchIsSlice(fs, lo, hi, a, b);
  }

  lemma {:induction false} StretchIsSlice(fs: seq<File>, lo: Bound, hi: Bound, a: nat, b: nat)
    requires a <= b <= |fs| && forall i | 0 <= i < |fs| :: Overlaps(fs[i], lo, hi) <==> a <= i < b
    ensures Slice(fs, Overlapping(fs, lo, hi), a)
  {
    FilterSlice(fs, (f: File) => Overlaps(f, lo, hi), a, b, |fs|);
    assert fs[..|fs|] == fs;
    assert Overlapping(fs, lo, hi) == fs[a..b];
  }

  ghost predicate LevelRanges(levels: Levels) {
    && |levels| == NUM_LEVELS
    && Spans(levels[0]) && Distinct(levels[0])
    && forall l | 1 <= l < NUM_LEVELS :: Ordered(levels[l])
  }

  lemma {:induction false} SliceDistinct(fs: seq<File>, r: seq<File>, a: nat)
    requires Ordered(fs) && Slice(fs, r, a)
    ensures Distinct(r)
  {
    forall i, j | 0 <= i < j < |r|
      ensures r[i] != r[j]
    {
      assert Before(fs[a + i].largest, fs[a + j].smallest);
    }
  }

  lemma {:induction false} OverlappingDistinct(levels: Levels, level: nat, lo: Bound, hi: Bound)
    requires LevelRanges(levels) && level < NUM_LEVELS
    ensures Distinct(Overlapping(levels[level], lo, hi))
  {
    var fs := levels[level];
    if level > 0 {
      assert Slice(fs, fs, 0);
      SliceDistinct(fs, fs, 0);
    }
    FilterDistinct(fs, (f: File) => Overlaps(f, lo, hi));
  }

  function TotalFileSize(files: seq<File>): nat {
    if files == [] then 0 else files[0].size + TotalFileSize(files[1..])
  }

  /** in1 is every file of the next level that meets the user-key range of in0. */
  ghost predicate CoversNextLevel(next: seq<File>, in0: seq<File>, in1: seq<File>) {
    exists smallest, largest :: IsRange(in0, smallest, largest)
      && in1 == Overlapping(next, Some(smallest.user), Some(largest.user))
  }

  /** What every way of choosing the inputs of a compaction from `level` guarantees. */
  ghost predicate CompactionInputs(levels: Levels, level: nat, in0: seq<File>, in1: seq<File>) {
    && |levels| == NUM_LEVELS && level + 1 < NUM_LEVELS
    && |in0| > 0 && Distinct(in0) && (forall f | f in in0 :: f in levels[level])
    && LeavesNewer(levels[level], in0)
    && CoversNextLevel(levels[level + 1], in0, in1)
  }

  /** A first choice: contiguous from a, or closed under overlap at level 0. */
  ghost predicate Picked(levels: Levels, level: nat, chosen: seq<File>, a: nat)
    requires level < |levels|
  {
    && |chosen| > 0 && Distinct(chosen) && (forall f | f in chosen :: f in levels[level])
    && if level == 0 then OverlapClosed(levels[0], chosen) else Slice(levels[level], chosen, a)
  }

  /** AddBoundaryInputs completes a first choice. */
  method CompleteLevel(levels: Levels, level: nat, chosen: seq<File>, ghost a: nat) returns (in0: seq<File>)
    requires LevelRanges(levels) && level < NUM_LEVELS && Picked(levels, level, chosen, a)
    ensures |in0| > 0 && Distinct(in0) && chosen <= in0 && forall f | f in in0 :: f in levels[level]
    ensures LeavesNewer(levels[level], in0)
  {
    ghost var largest;
    SubsetSpans(levels[level], chosen);
    in0, largest := AddBoundaryInputs(levels[level], chosen, a);
    if level == 0 {
      OverlapClosedIsBoundaryFree(levels[0], chosen);
    } else {
      SliceLeavesNewer(levels[level], in0, a, largest);
      SliceDistinct(levels[level], in0, a);
    }
    assert in0 == chosen + in0[|chosen|..];
  }

  /** The files of `level` inside the whole range of in0 and in1, completed. */
  method ExpandedLevel(levels: Levels, level: nat, in0: seq<File>, in1: seq<File>) returns (expanded0: seq<File>)
    requires LevelRanges(levels) && level + 1 < NUM_LEVELS
    requires |in0| > 0 && (forall f | f in in0 :: f in levels[level]) && (forall f | f in in1 :: f in levels[level + 1])
    ensures |expanded0| > 0 && Distinct(expanded0) && forall f | f in expanded0 :: f in levels[level]
    ensures Expansion(levels[level], in0, in1, expanded0)
  {
    SubsetSpans(levels[level], in0);
    SubsetSpans(levels[level + 1], in1);
    var allStart, allLimit := GetRange(in0 + in1);
    var expanded;
    ghost var lo, hi;
    expanded, lo, hi := GetOverlappingInputs(levels[level], level == 0, Some(allStart.user), Some(allLimit.user));
    forall f | f in in0
      ensures f in expanded
    {
      assert f in in0 + in1;
    }
    assert in0[0] in expanded;
    ghost var a := 0;
    OverlappingDistinct(levels, level, lo, hi);
    if level == 0 {
      ClosedRangeIsOverlapClosed(levels[0], lo, hi);
    } else {
      a := OverlappingIsSlice(levels[level], lo, hi);
    }
    expanded0 := CompleteLevel(levels, level, expanded, a);
    assert expanded <= expanded0;
    ExpansionIs(levels[level], in0, in1, expanded, expanded0, allStart, allLimit, lo, hi);
  }

  /** expanded holds the files of the level that meet the range of in0 and in1 together, and is complete. */
  ghost predicate Expansion(files: seq<File>, in0: seq<File>, in1: seq<File>, expanded: seq<File>) {
    && LeavesNewer(files, expanded) && (forall f | f in in0 :: f in expanded)
    && exists smallest, largest :: IsRange(in0 + in1, smallest, largest)
         && forall f | f in files && Overlaps(f, Some(smallest.user), Some(largest.user)) :: f in expanded
  }

  lemma {:induction false} ExpansionIs(files: seq<File>, in0: seq<File>, in1: seq<File>, first: seq<File>, expanded: seq<File>,
                                       smallest: IKey, largest: IKey, lo: Bound, hi: Bound)
    requires IsRange(in0 + in1, smallest, largest) && first == Overlapping(files, lo, hi) && first <= expanded
    requires Widens(lo, hi, Some(smallest.user), Some(largest.user)) && LeavesNewer(files, expanded)
    requires forall f | f in in0 :: f in first
    ensures Expansion(files, in0, in1, expanded)
  {
    hide LeavesNewer, IsRange;
    forall f | f in files && Overlaps(f, Some(smallest.user), Some(largest.user)) ensures f in expanded {
      assert f in first;
    }
  }

  method NextLevelInputs(levels: Levels, level: nat, in0: seq<File>) returns (in1: seq<File>)
    requires LevelRanges(levels) && level + 1 < NUM_LEVELS
    requires |in0| > 0 && forall f | f in in0 :: f in levels[level]
    ensures CoversNextLevel(levels[level + 1], in0, in1)
    ensures forall f | f in in1 :: f in levels[level + 1]
  {
    SubsetSpans(levels[level], in0);
    var smallest, largest := GetRange(in0);
    ghost var lo, hi;
    in1, lo, hi := GetOverlappingInputs(levels[level + 1], false, Some(smallest.user), Some(largest.user));
  }

  /** A wider range that meets as many files meets the same ones. */
  lemma {:induction false} FilterWider(files: seq<File>, p: File -> bool, q: File -> bool)
    requires forall f | f in files && p(f) :: q(f)
    ensures |Filter(files, p)| <= |Filter(files, q)|
    ensures |Filter(files, p)| == |Filter(files, q)| ==> Filter(files, p) == Filter(files, q)
  {
    if files != [] {
      FilterWider(files[..|files| - 1], p, q);
    }
  }

  lemma {:induction false} SameCountSameFiles(next: seq<File>, base: seq<File>, grown: seq<File>, in1: seq<File>, grown1: seq<File>)
    requires CoversNextLevel(next, base, in1) && CoversNextLevel(next, grown, grown1)
    requires (forall f | f in base :: f in grown) && |grown1| == |in1|
    ensures grown1 == in1
  {
    var s, l :| IsRange(base, s, l) && in1 == Overlapping(next, Some(s.user), Some(l.user));
    var s1, l1 :| IsRange(grown, s1, l1) && grown1 == Overlapping(next, Some(s1.user), Some(l1.user));
    assert s1.user <= s.user && l.user <= l1.user;
    FilterWider(next, (f: File) => Overlaps(f, Some(s.user), Some(l.user)), (f: File) => Overlaps(f, Some(s1.user), Some(l1.user)));
  }

  lemma {:induction false} CoversUnique(next: seq<File>, in0: seq<File>, a: seq<File>, b: seq<File>)
    requires CoversNextLevel(next, in0, a) && CoversNextLevel(next, in0, b)
    ensures a == b
  {
    var s, l :| IsRange(in0, s, l) && a == Overlapping(next, Some(s.user), Some(l.user));
    var s1, l1 :| IsRange(in0, s1, l1) && b == Overlapping(next, Some(s1.user), Some(l1.user));
    assert s1.user == s.user && l.user == l1.user;
  }

  /** Growing from base to expanded is worth it: more files, not too many bytes, and the same files of the next level. */
  ghost predicate Grows(next: seq<File>, base: seq<File>, in1: seq<File>, expanded: seq<File>, sizeLimit: nat) {
    && |expanded| > |base| && TotalFileSize(in1) + TotalFileSize(expanded) < sizeLimit
    && CoversNextLevel(next, expanded, in1)
  }

  /** The choice, the files it meets at the next level, and the largest key, which becomes the compaction
      pointer. base is the completed first choice; it grows to what the whole range meets when that leaves
      the number of files at the next level as it is, and so the files themselves. */
  method SetupOtherInputs(levels: Levels, level: nat, chosen: seq<File>, sizeLimit: nat, ghost a: nat)
    returns (in0: seq<File>, in1: seq<File>, pointer: IKey, ghost base: seq<File>, ghost expanded: seq<File>)
    requires LevelRanges(levels) && level + 1 < NUM_LEVELS && Picked(levels, level, chosen, a)
    ensures CompactionInputs(levels, level, in0, in1) && HasLargest(in0, pointer)
    ensures chosen <= base && LeavesNewer(levels[level], base) && CoversNextLevel(levels[level + 1], base, in1)
    ensures forall f | f in base :: f in in0
    ensures in1 == [] ==> in0 == base
    ensures in1 != [] ==> Expansion(levels[level], base, in1, expanded)
    ensures in1 != [] ==>
              in0 == if |expanded| > |base| && TotalFileSize(in1) + TotalFileSize(expanded) < sizeLimit
                        && CoversNextLevel(levels[level + 1], expanded, in1) then expanded else base
  {
    hide IsRange, CoversNextLevel, LeavesNewer, Expansion, Picked;
    in0 := CompleteLevel(levels, level, chosen, a);
    in1 := NextLevelInputs(levels, level, in0);
    base, expanded := in0, in0;
    if |in1| > 0 {
      var expanded0 := ExpandedLevel(levels, level, in0, in1);
      expanded := expanded0;
      ExpansionHolds(levels[level], in0, in1, expanded0);
      if |expanded0| > |in0| && TotalFileSize(in1) + TotalFileSize(expanded0) < sizeLimit {
        var expanded1 := NextLevelInputs(levels, level, expanded0);
        if |expanded1| == |in1| {
          SameCountSameFiles(levels[level + 1], in0, expanded0, in1, expanded1);
          in0, in1 := expanded0, expanded1;
        } else if CoversNextLevel(levels[level + 1], expanded0, in1) {
          CoversUnique(levels[level + 1], expanded0, expanded1, in1);
        }
      }
    }
    SubsetSpans(levels[level], in0);
    var smallest, largest := GetRange(in0);
    LargestOfRange(in0, smallest, largest);
    pointer := largest;
  }

  lemma {:induction false} ExpansionHolds(files: seq<File>, in0: seq<File>, in1: seq<File>, expanded: seq<File>)
    requires Expansion(files, in0, in1, expanded)
    ensures LeavesNewer(files, expanded) && forall f | f in in0 :: f in expanded
  {
  }

  lemma {:induction false} LargestOfRange(files: seq<File>, smallest: IKey, largest: IKey)
    requires IsRange(files, smallest, largest)
    ensures HasLargest(files, largest)
  {
  }

  /** The inputs of a compaction and the next compaction pointer of its level. */
  datatype Choice = Choice(in0: seq<File>, in1: seq<File>, pointer: IKey)

  ghost predicate ChosenAt(levels: Levels, level: nat, c: Choice) {
    CompactionInputs(levels, level, c.in0, c.in1) && HasLargest(c.in0, c.pointer)
  }

  predicate AfterPointer(f: File, compactPointer: Option<IKey>) {
    compactPointer.None? || Before(compactPointer.value, f.largest)
  }

  /** The size-triggered choice: the first file after the compaction pointer, wrapping around. */
  method PickSizeCompaction(levels: Levels, level: nat, compactPointer: Option<IKey>, sizeLimit: nat)
    returns (r: Choice, ghost k: nat)
    requires LevelRanges(levels) && level + 1 < NUM_LEVELS && |levels[level]| > 0
    ensures ChosenAt(levels, level, r) && k < |levels[level]| && levels[level][k] in r.in0
    ensures forall i | 0 <= i < k :: !AfterPointer(levels[level][i], compactPointer)
    ensures AfterPointer(levels[level][k], compactPointer) || (k == 0 && forall f | f in levels[level] :: !AfterPointer(f, compactPointer))
    ensures compactPointer.None? ==> k == 0
    ensures compactPointer.Some? ==>
              && (forall i | 0 <= i < k :: !Before(compactPointer.value, levels[level][i].largest))
              && (Before(compactPointer.value, levels[level][k].largest)
                  || (k == 0 && forall f | f in levels[level] :: !Before(compactPointer.value, f.largest)))
  {
    hide ChosenAt, Before, Ordered, Spans, Distinct;
    var files := levels[level];
    assert compactPointer.None? ==> AfterPointer(files[0], compactPointer);
    var pick := 0;
    for i := 0 to |files|
      invariant pick == 0 && forall j | 0 <= j < i :: !AfterPointer(files[j], compactPointer)
    {
      if compactPointer.None? || Before(compactPointer.value, files[i].largest) {
        pick := i;
        break;
      }
    }
    k := pick;
    r := CompactFile(levels, level, pick, sizeLimit);
  }

  /** A compaction of one picked file (also the seek-triggered choice): at level 0 the file is
      replaced by the closed set of files around it. */
  method CompactFile(levels: Levels, level: nat, pick: nat, sizeLimit: nat)
    returns (r: Choice)
    requires LevelRanges(levels) && level + 1 < NUM_LEVELS && pick < |levels[level]|
    ensures ChosenAt(levels, level, r) && levels[level][pick] in r.in0
  {
    hide CoversNextLevel;
    var f := levels[level][pick];
    var chosen := [f];
    if level == 0 {
      var smallest, largest := GetRange(chosen);
      ghost var lo, hi;
      chosen, lo, hi := GetOverlappingInputs(levels[0], true, Some(smallest.user), Some(largest.user));
      ClosedRangeIsOverlapClosed(levels[0], lo, hi);
      OverlappingDistinct(levels, 0, lo, hi);
      assert f in chosen;
    }
    var in0, in1, pointer;
    ghost var base, expanded;
    in0, in1, pointer, base, expanded := SetupOtherInputs(levels, level, chosen, sizeLimit, pick);
    r := Choice(in0, in1, pointer);
    assert f in chosen && chosen <= base;
  }

  /** inputs is the front of the files in the range, up to the first that makes it `limit` bytes. */
  ghost predicate CutShort(inputs: seq<File>, all: seq<File>, limit: nat) {
    && inputs <= all && (all != [] ==> inputs != [])
    && (|inputs| > 1 ==> TotalFileSize(inputs[..|inputs| - 1]) < limit)
    && (inputs != all ==> TotalFileSize(inputs) >= limit)
  }

  /** A manual compaction of [begin, end]: below level 0 it stops after `limit` bytes of input. */
  method CompactRange(levels: Levels, level: nat, begin: Bound, end: Bound, limit: nat, sizeLimit: nat)
    returns (r: Option<Choice>, ghost inputs: seq<File>)
    requires LevelRanges(levels) && level + 1 < NUM_LEVELS
    ensures r.None? <==> forall f | f in levels[level] :: !Overlaps(f, begin, end)
    ensures r.Some? ==> ChosenAt(levels, level, r.value) && forall f | f in inputs :: f in r.value.in0
    ensures level == 0 ==> forall f | f in levels[0] && Overlaps(f, begin, end) :: f in inputs
    ensures level > 0 ==> CutShort(inputs, Overlapping(levels[level], begin, end), limit)
    ensures level > 0 ==> var all := Overlapping(levels[level], begin, end);
      && inputs <= all && (inputs == [] ==> all == [])
      && (|inputs| > 1 ==> TotalFileSize(inputs[..|inputs| - 1]) < limit) && (inputs != all ==> TotalFileSize(inputs) >= limit)
  {
    hide LeavesNewer, CoversNextLevel, Slice, OverlapClosed;
    ghost var a;
    var picked;
    picked, a := PickRange(levels, level, begin, end, limit);
    inputs := picked;
    if |picked| == 0 {
      return None, inputs;
    }
    var in0, in1, pointer;
    ghost var base, expanded;
    in0, in1, pointer, base, expanded := SetupOtherInputs(levels, level, picked, sizeLimit, a);
    assert forall f | f in picked :: f in base;
    r := Some(Choice(in0, in1, pointer));
  }

  lemma {:induction false} NothingMet(files: seq<File>, begin: Bound, end: Bound, lo: Bound, hi: Bound)
    requires Widens(lo, hi, begin, end) && InEveryClosedRange(files, begin, end, lo, hi)
    ensures Overlapping(files, lo, hi) == [] <==> forall f | f in files :: !Overlaps(f, begin, end)
  {
    OverlappingEmpty(files, lo, hi);
    if forall f | f in files :: !Overlaps(f, begin, end) {
      assert ClosedRange(files, begin, end) && Widens(begin, end, begin, end);
      assert lo == begin && hi == end;
    }
  }

  lemma {:induction false} OverlappingEmpty(files: seq<File>, lo: Bound, hi: Bound)
    ensures Overlapping(files, lo, hi) == [] <==> forall f | f in files :: !Overlaps(f, lo, hi)
  {
    var s := Overlapping(files, lo, hi);
    assert s != [] ==> s[0] in s;
  }

  /** The files of the range, cut short below level 0. */
  method PickRange(levels: Levels, level: nat, begin: Bound, end: Bound, limit: nat)
    returns (inputs: seq<File>, ghost a: nat)
    requires LevelRanges(levels) && level + 1 < NUM_LEVELS
    ensures |inputs| == 0 <==> forall f | f in levels[level] :: !Overlaps(f, begin, end)
    ensures |inputs| > 0 ==> Picked(levels, level, inputs, a)
    ensures level == 0 ==> forall f | f in levels[0] && Overlaps(f, begin, end) :: f in inputs
    ensures level > 0 ==> CutShort(inputs, Overlapping(levels[level], begin, end), limit)
  {
    hide IsRange;
    ghost var lo, hi;
    inputs, lo, hi := GetOverlappingInputs(levels[level], level == 0, begin, end);
    a := 0;
    OverlappingDistinct(levels, level, lo, hi);
    if level == 0 {
      ClosedRangeIsOverlapClosed(levels[0], lo, hi);
      NothingMet(levels[0], begin, end, lo, hi);
    } else {
      a := OverlappingIsSlice(levels[level], lo, hi);
      OverlappingEmpty(levels[level], lo, hi);
      inputs := CutToLimit(inputs, limit);
    }
  }

  method CutToLimit(all: seq<File>, limit: nat) returns (inputs: seq<File>)
    ensures CutShort(inputs, all, limit)
  {
    inputs := all;
    if all != [] {
      var n := FirstBytes(all, limit);
      inputs := all[..n];
      assert inputs[..n - 1] == all[..n - 1];
      assert n == |all| ==> inputs == all;
    }
  }

  /** How many files it takes to reach `limit` bytes. */
  method FirstBytes(files: seq<File>, limit: nat) returns (n: nat)
    requires |files| > 0
    ensures 0 < n <= |files|
    ensures TotalFileSize(files[..n - 1]) < limit || n == 1
    ensures n < |files| ==> TotalFileSize(files[..n]) >= limit
  {
    var total := 0;
    for i := 0 to |files|
      invariant total == TotalFileSize(files[..i])
      invariant i > 0 ==> total < limit
    {
      total := total + files[i].size;
      TotalFileSizeAppend(files[..i], files[i]);
      assert files[..i + 1] == files[..i] + [files[i]];
      if total >= limit {
        return i + 1;
      }
    }
    TotalFileSizeAppend(files[..|files| - 1], files[|files| - 1]);
    assert files[..|files|] == files[..|files| - 1] + [files[|files| - 1]];
    n := |files|;
  }

  lemma {:induction false} TotalFileSizeAppend(files: seq<File>, f: File)
    ensures TotalFileSize(files + [f]) == TotalFileSize(files) + f.size
  {
    if files != [] {
      assert (files + [f])[1..] == files[1..] + [f];
      TotalFileSizeAppend(files[1..], f);
    }
  }

  /** No file at levels 0 to `level` meets [lo, hi]. */
  ghost predicate ClearThrough(levels: Levels, level: nat, lo: UserKey, hi: UserKey) {
    forall l, f | 0 <= l <= level && l < |levels| && f in levels[l] :: !Overlaps(f, Some(lo), Some(hi))
  }

  ghost predicate MeetsLevel(files: seq<File>, lo: UserKey, hi: UserKey) {
    exists f :: f in files && Overlaps(f, Some(lo), Some(hi))
  }

  /** A flushed memtable goes below level 0 only past levels its key range does not meet, and as far
      as it may: the next level meets the range, or the level after that holds too much of it. */
  method PickLevelForMemTableOutput(levels: Levels, lo: UserKey, hi: UserKey, maxGrandParentOverlap: nat)
    returns (level: nat)
    requires LevelRanges(levels)
    requires forall l, f | 0 <= l < |levels| && f in levels[l] :: f.largest.kind <= 1
    ensures level <= 2
    ensures level > 0 ==> ClearThrough(levels, level, lo, hi)
    ensures level < 2 ==>
      || (level == 0 && MeetsLevel(levels[0], lo, hi))
      || MeetsLevel(levels[level + 1], lo, hi)
      || TotalFileSize(Overlapping(levels[level + 2], Some(lo), Some(hi))) > maxGrandParentOverlap
  {
    level := 0;
    var overlap := SomeFileOverlapsRange(false, levels[0], Some(lo), Some(hi));
    if !overlap {
      while level < MAX_MEM_COMPACT_LEVEL
        invariant level <= MAX_MEM_COMPACT_LEVEL
        invariant ClearThrough(levels, level, lo, hi)
      {
        overlap := SomeFileOverlapsRange(true, levels[level + 1], Some(lo), Some(hi));
        if overlap {
          break;
        }
        var grandparents;
        ghost var g0, g1;
        grandparents, g0, g1 := GetOverlappingInputs(levels[level + 2], false, Some(lo), Some(hi));
        if TotalFileSize(grandparents) > maxGrandParentOverlap {
          break;
        }
        level := level + 1;
      }
    }
  }
}
