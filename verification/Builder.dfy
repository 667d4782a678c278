/**
 * Accumulating edits and saving the resulting version (db/version_set.cc: VersionSet::Builder,
 * Recover).
 */
module Builders {
  import opened Basics
  import opened Versions
  import opened Edits

  lemma {:induction false} BySmallestTrans(a: File, b: File, c: File)
    requires BySmallest(a, b) && BySmallest(b, c)
    ensures BySmallest(a, c)
  {
  }

  /** Insertion into the ordered set of added files: an equivalent file already there is kept. */
  function InsertFile(fs: seq<File>, f: File): seq<File> {
    if fs == [] || BySmallest(f, fs[0]) then [f] + fs
    else if BySmallest(fs[0], f) then [fs[0]] + InsertFile(fs[1..], f)
    else fs
  }

  predicate NumberFree(fs: seq<File>, number: nat) {
    forall i | 0 <= i < |fs| :: fs[i].number != number
  }

  lemma {:induction false} InsertFileSorted(fs: seq<File>, f: File)
    requires SortedBySmallest(fs) && NumberFree(fs, f.number)
    ensures SortedBySmallest(InsertFile(fs, f))
    ensures forall g :: g in InsertFile(fs, f) <==> g in fs || g == f
  {
    if fs != [] && !BySmallest(f, fs[0]) {
      InsertFileSorted(fs[1..], f);
      var rest := InsertFile(fs[1..], f);
      forall j | 0 <= j < |rest|
        ensures BySmallest(fs[0], rest[j])
      {
        assert rest[j] in rest;
        if rest[j] != f {
          var k :| 1 <= k < |fs| && fs[k] == rest[j];
        }
      }
    } else if fs != [] {
      forall j | 0 <= j < |fs|
        ensures BySmallest(f, fs[j])
      {
      }
    }
  }

  /** std::upper_bound over the base files: how many of them do not come after f. */
  method UpperBound(files: seq<File>, start: nat, f: File) returns (pos: nat)
    requires start <= |files| && SortedBySmallest(files)
    ensures start <= pos <= |files|
    ensures forall i | start <= i < pos :: !BySmallest(f, files[i])
    ensures forall i | pos <= i < |files| :: BySmallest(f, files[i])
  {
    pos := start;
    var end := |files|;
    while pos < end
      invariant start <= pos <= end <= |files|
      invariant forall i | start <= i < pos :: !BySmallest(f, files[i])
      invariant forall i | end <= i < |files| :: BySmallest(f, files[i])
    {
      var mid := (pos + end) / 2;
      if BySmallest(f, files[mid]) {
        forall i | mid < i < |files| ensures BySmallest(f, files[i]) {
          BySmallestTrans(f, files[mid], files[i]);
        }
        end := mid;
      } else {
        forall i | start <= i < mid ensures !BySmallest(f, files[i]) {
          assert BySmallest(files[i], files[mid]);
          if BySmallest(f, files[i]) {
            BySmallestTrans(f, files[i], files[mid]);
          }
        }
        pos := mid + 1;
      }
    }
  }

  /** v holds the undeleted files of done, sorted, and everything in it comes before todo. */
  ghost predicate MergedSoFar(v: seq<File>, base: seq<File>, bi: nat, added: seq<File>, ai: nat, deleted: set<nat>)
    requires bi <= |base| && ai <= |added|
  {
    && SortedBySmallest(v)
    && (forall f :: f in v <==> (f in base[..bi] || f in added[..ai]) && f.number !in deleted)
    && (forall i, j | 0 <= i < |v| && bi <= j < |base| :: BySmallest(v[i], base[j]))
    && (forall i, j | 0 <= i < |v| && ai <= j < |added| :: BySmallest(v[i], added[j]))
  }

  /** MaybeAddFile of the next base file. */
  lemma {:induction false} MergeBase(v: seq<File>, base: seq<File>, bi: nat, added: seq<File>, ai: nat, deleted: set<nat>)
    requires bi < |base| && ai <= |added| && SortedBySmallest(base)
    requires MergedSoFar(v, base, bi, added, ai, deleted)
    requires forall j | ai <= j < |added| :: BySmallest(base[bi], added[j])
    ensures MergedSoFar(if base[bi].number in deleted then v else v + [base[bi]], base, bi + 1, added, ai, deleted)
  {
    assert base[..bi + 1] == base[..bi] + [base[bi]];
  }

  lemma {:induction false} MergeAdded(v: seq<File>, base: seq<File>, bi: nat, added: seq<File>, ai: nat, deleted: set<nat>)
    requires bi <= |base| && ai < |added| && SortedBySmallest(added)
    requires MergedSoFar(v, base, bi, added, ai, deleted)
    requires forall j | bi <= j < |base| :: BySmallest(added[ai], base[j])
    ensures MergedSoFar(if added[ai].number in deleted then v else v + [added[ai]], base, bi, added, ai + 1, deleted)
  {
    assert added[..ai + 1] == added[..ai] + [added[ai]];
  }

  /** The base files up to pos, one by one. */
  method AddBaseFiles(v0: seq<File>, base: seq<File>, bi: nat, pos: nat, added: seq<File>, ghost ai: nat, deleted: set<nat>)
    returns (v: seq<File>)
    requires bi <= pos <= |base| && ai <= |added| && SortedBySmallest(base)
    requires MergedSoFar(v0, base, bi, added, ai, deleted)
    requires forall i, j | bi <= i < pos && ai <= j < |added| :: BySmallest(base[i], added[j])
    ensures MergedSoFar(v, base, pos, added, ai, deleted)
  {
    v := v0;
    for i := bi to pos
      invariant MergedSoFar(v, base, i, added, ai, deleted)
    {
      MergeBase(v, base, i, added, ai, deleted);
      if base[i].number !in deleted {
        v := v + [base[i]];
      }
    }
  }

  /** SaveTo for one level: merges the sorted added files into the sorted base files. */
  method SaveLevel(base: seq<File>, added: seq<File>, deleted: set<nat>) returns (v: seq<File>)
    requires SortedBySmallest(base) && SortedBySmallest(added)
    requires forall i | 0 <= i < |added| :: NumberFree(base, added[i].number)
    ensures SortedBySmallest(v)
    ensures forall f :: f in v <==> (f in base || f in added) && f.number !in deleted
  {
    v := [];
    var bi := 0;
    for ai := 0 to |added|
      invariant bi <= |base|
      invariant MergedSoFar(v, base, bi, added, ai, deleted)
    {
      var pos := UpperBound(base, bi, added[ai]);
      forall i, j | bi <= i < pos && ai <= j < |added|
        ensures BySmallest(base[i], added[j])
      {
        assert NumberFree(base, added[ai].number);
        if j > ai {
          BySmallestTrans(base[i], added[ai], added[j]);
        }
      }
      v := AddBaseFiles(v, base, bi, pos, added, ai, deleted);
      bi := pos;
      MergeAdded(v, base, bi, added, ai, deleted);
      if added[ai].number !in deleted {
        v := v + [added[ai]];
      }
    }
    v := AddBaseFiles(v, base, bi, |base|, added, |added|, deleted);
    assert base[..|base|] == base && added[..|added|] == added;
  }

  function NumberAt(edit: Edit, i: nat): (nat, nat)
    requires i < |edit.added|
  {
    (edit.added[i].0, edit.added[i].1.number)
  }

  ghost function EditNumbers(edit: Edit, n: nat): set<(nat, nat)>
    requires n <= |edit.added|
  {
    set i: nat | i < n :: NumberAt(edit, i)
  }

  /** No (level, number) is added twice by one edit, and all levels exist. */
  ghost predicate EditOk(edit: Edit) {
    && (forall i | 0 <= i < |edit.added| :: edit.added[i].0 < NUM_LEVELS)
    && (forall p | p in edit.deleted :: p.0 < NUM_LEVELS)
    && (forall i, j | 0 <= i < j < |edit.added| :: NumberAt(edit, i) != NumberAt(edit, j))
  }

  lemma {:induction false} EditNumbersStep(edit: Edit, i: nat)
    requires i < |edit.added| && EditOk(edit)
    ensures EditNumbers(edit, i + 1) == EditNumbers(edit, i) + {NumberAt(edit, i)}
    ensures NumberAt(edit, i) !in EditNumbers(edit, i)
  {
    forall p | p in EditNumbers(edit, i + 1)
      ensures p in EditNumbers(edit, i) + {NumberAt(edit, i)}
    {
      var j: nat :| j < i + 1 && p == NumberAt(edit, j);
      assert j < i ==> NumberAt(edit, j) in EditNumbers(edit, i);
    }
    forall p | p in EditNumbers(edit, i)
      ensures p in EditNumbers(edit, i + 1) && p != NumberAt(edit, i)
    {
      var j: nat :| j < i && p == NumberAt(edit, j);
    }
  }

  /** The (level, number) pairs of a version. */
  ghost function NumbersOf(levels: Levels): set<(nat, nat)> {
    set l: nat, f | l < |levels| && f in levels[l] :: (l, f.number)
  }

  class Builder {
    const base: Levels
    var deleted: seq<set<nat>>
    var added: seq<seq<File>>
    /** every (level, number) of the base version and of the added files */
    ghost var seen: set<(nat, nat)>

    /** Each (level, number) has been added at most once, counting the base version. */
    ghost predicate Valid()
      reads this
    {
      && |base| == |deleted| == |added| == NUM_LEVELS
      && (forall l: nat | l < NUM_LEVELS :: SortedBySmallest(base[l]) && SortedBySmallest(added[l]))
      && (forall l: nat, i | l < NUM_LEVELS && 0 <= i < |added[l]| :: NumberFree(base[l], added[l][i].number))
      && (forall l: nat, f | l < NUM_LEVELS && f in base[l] :: (l, f.number) in seen)
      && (forall l: nat, f | l < NUM_LEVELS && f in added[l] :: (l, f.number) in seen)
    }

    /** f would be in level l of the saved version. */
    ghost predicate Has(l: nat, f: File)
      requires Valid() && l < NUM_LEVELS
      reads this
    {
      (f in base[l] || f in added[l]) && f.number !in deleted[l]
    }

    constructor (levels: Levels)
      requires |levels| == NUM_LEVELS && forall l: nat | l < NUM_LEVELS :: SortedBySmallest(levels[l])
      ensures Valid() && base == levels && seen == NumbersOf(levels)
      ensures forall l: nat, f | l < NUM_LEVELS :: Has(l, f) <==> f in levels[l]
    {
      base := levels;
      deleted := seq(NUM_LEVELS, _ => {});
      added := seq(NUM_LEVELS, _ => []);
      seen := NumbersOf(levels);
    }

    method AddFile(l: nat, f: File)
      requires Valid() && l < NUM_LEVELS && (l, f.number) !in seen
      modifies this
      ensures Valid() && seen == old(seen) + {(l, f.number)}
      ensures forall m: nat, g | m < NUM_LEVELS :: Has(m, g) <==> old(Has(m, g)) || (m == l && g == f)
    {
      assert NumberFree(base[l], f.number) && NumberFree(added[l], f.number) by {
        assert forall i | 0 <= i < |base[l]| :: base[l][i] in base[l];
        assert forall i | 0 <= i < |added[l]| :: added[l][i] in added[l];
      }
      InsertFileSorted(added[l], f);
      var fs := InsertFile(added[l], f);
      forall i | 0 <= i < |fs|
        ensures NumberFree(base[l], fs[i].number)
      {
        assert fs[i] in fs;
      }
      deleted := deleted[l := deleted[l] - {f.number}];
      added := added[l := fs];
      seen := seen + {(l, f.number)};
    }

    method DeleteFiles(edit: Edit)
      requires Valid() && EditOk(edit)
      modifies this`deleted
      ensures Valid()
      ensures forall m: nat, g | m < NUM_LEVELS :: Has(m, g) <==> old(Has(m, g)) && (m, g.number) !in edit.deleted
    {
      var rest := edit.deleted;
      while rest != {}
        invariant Valid() && rest <= edit.deleted
        invariant forall m: nat | m < NUM_LEVELS :: forall n: nat ::
          n in deleted[m] <==> n in old(deleted)[m] || (m, n) in edit.deleted - rest
      {
        var p :| p in rest;
        rest := rest - {p};
        deleted := deleted[p.0 := deleted[p.0] + {p.1}];
      }
    }

    /** Apply: deletions first, then additions. What is held is the edit applied to what was held. */
    method Apply(edit: Edit)
      requires Valid() && EditOk(edit) && EditNumbers(edit, |edit.added|) !! seen
      modifies this
      ensures Valid() && seen == old(seen) + EditNumbers(edit, |edit.added|)
      ensures forall m: nat, g | m < NUM_LEVELS ::
        Has(m, g) <==> (old(Has(m, g)) && (m, g.number) !in edit.deleted) || (m, g) in edit.added
    {
      DeleteFiles(edit);
      for i := 0 to |edit.added|
        invariant Valid() && seen == old(seen) + EditNumbers(edit, i)
        invariant forall m: nat, g | m < NUM_LEVELS ::
          Has(m, g) <==> (old(Has(m, g)) && (m, g.number) !in edit.deleted) || (m, g) in edit.added[..i]
      {
        assert edit.added[..i + 1] == edit.added[..i] + [edit.added[i]];
        assert NumberAt(edit, i) in EditNumbers(edit, |edit.added|);
        EditNumbersStep(edit, i);
        AddFile(edit.added[i].0, edit.added[i].1);
      }
      assert edit.added[..|edit.added|] == edit.added;
    }

    /** Save what has been accumulated. */
    method SaveTo() returns (v: Levels)
      requires Valid()
      ensures |v| == NUM_LEVELS
      ensures forall l: nat | l < NUM_LEVELS :: SortedBySmallest(v[l]) && forall f :: f in v[l] <==> Has(l, f)
    {
      v := [];
      for l := 0 to NUM_LEVELS
        invariant |v| == l
        invariant forall m: nat | m < l :: SortedBySmallest(v[m]) && forall f :: f in v[m] <==> Has(m, f)
      {
        var files := SaveLevel(base[l], added[l], deleted[l]);
        v := v + [files];
      }
    }
  }

  /** What LogAndApply and Recover do with a builder for one edit. */
  method Install(levels: Levels, edit: Edit) returns (v: Levels)
    requires |levels| == NUM_LEVELS && LevelsSorted(levels)
    requires EditOk(edit) && EditNumbers(edit, |edit.added|) !! NumbersOf(levels)
    ensures |v| == NUM_LEVELS && Saved(levels, edit, v) && LevelsSorted(v)
  {
    var b := new Builder(levels);
    b.Apply(edit);
    v := b.SaveTo();
  }

  // ---- Recovery ----

  const NO_FILES: Levels := [[], [], [], [], [], [], []]

  /** states[i + 1] is the version installed for edits[i] on top of states[i]. */
  ghost predicate Chain(states: seq<Levels>, edits: seq<Edit>) {
    |states| == |edits| + 1 && forall i | 0 <= i < |edits| :: Saved(states[i], edits[i], states[i + 1])
  }

  /** The same from the empty version on. */
  ghost predicate Installed(states: seq<Levels>, edits: seq<Edit>) {
    Chain(states, edits) && states[0] == NO_FILES
  }

  /** Each (level, number) is added at most once in the whole list. */
  ghost predicate AddedOnce(edits: seq<Edit>) {
    && (forall i | 0 <= i < |edits| :: EditOk(edits[i]))
    && (forall i, j | 0 <= i < j < |edits| ::
          EditNumbers(edits[i], |edits[i].added|) !! EditNumbers(edits[j], |edits[j].added|))
  }

  lemma {:induction false} SameFirst(a: seq<File>, b: seq<File>)
    requires SortedBySmallest(a) && SortedBySmallest(b) && a != [] && b != []
    requires a[0] in b && b[0] in a
    ensures a[0] == b[0]
  {
    var i :| 0 <= i < |a| && a[i] == b[0];
    var j :| 0 <= j < |b| && b[j] == a[0];
  }

  /** Sorted lists of the same files are the same list. */
  lemma {:induction false} SortedUnique(a: seq<File>, b: seq<File>)
    requires SortedBySmallest(a) && SortedBySmallest(b) && forall f :: f in a <==> f in b
    ensures a == b
  {
    assert a != [] ==> a[0] in a;
    assert b != [] ==> b[0] in b;
    if a != [] {
      SameFirst(a, b);
      SortedTail(a, b);
      SortedUnique(a[1..], b[1..]);
      assert a == [a[0]] + a[1..] && b == [b[0]] + b[1..];
    }
  }

  lemma {:induction false} SortedTail(a: seq<File>, b: seq<File>)
    requires SortedBySmallest(a) && SortedBySmallest(b) && (forall f :: f in a <==> f in b)
    requires a != [] && b != [] && a[0] == b[0]
    ensures SortedBySmallest(a[1..]) && SortedBySmallest(b[1..])
    ensures forall f :: f in a[1..] <==> f in b[1..]
  {
    forall f | f in a[1..]
      ensures f in b[1..]
    {
      assert f in b;
      assert f != a[0];
    }
    forall f | f in b[1..]
      ensures f in a[1..]
    {
      assert f in a;
      assert f != b[0];
    }
  }

  lemma {:induction false} SavedSorted(states: seq<Levels>, edits: seq<Edit>)
    requires Installed(states, edits)
    ensures |states[|edits|]| == NUM_LEVELS && forall l: nat | l < NUM_LEVELS :: SortedBySmallest(states[|edits|][l])
    decreases |edits|
  {
    if |edits| > 0 {
      var n := |edits| - 1;
      SavedSorted(states[..|edits|], edits[..n]);
      var from, to := states[n], states[n + 1];
      assert Saved(from, edits[n], to);
      forall l | 0 <= l < NUM_LEVELS
        ensures SortedBySmallest(to[l])
      {
        assert LevelSaved(from[l], edits[n], l, to[l]);
      }
    }
  }

  ghost predicate Holds(b: Builder, levels: Levels)
    requires b.Valid()
    reads b
  {
    |levels| == NUM_LEVELS && forall l: nat, f | l < NUM_LEVELS :: b.Has(l, f) <==> f in levels[l]
  }

  lemma {:induction false} HoldsNext(b: Builder, from: Levels, edit: Edit, to: Levels)
    requires b.Valid() && Saved(from, edit, to) && |from| == NUM_LEVELS
    requires forall m: nat, g | m < NUM_LEVELS ::
        b.Has(m, g) <==> (g in from[m] && (m, g.number) !in edit.deleted) || (m, g) in edit.added
    ensures Holds(b, to)
  {
    forall l: nat, f | l < NUM_LEVELS
      ensures b.Has(l, f) <==> f in to[l]
    {
      assert LevelSaved(from[l], edit, l, to[l]);
    }
  }

  /** Replaying all edits into one builder and saving once gives the version that was installed
      edit by edit. */
  method Replay(edits: seq<Edit>, ghost states: seq<Levels>) returns (v: Levels)
    requires AddedOnce(edits) && Installed(states, edits)
    ensures v == states[|edits|]
  {
    var b := new Builder(NO_FILES);
    for i := 0 to |edits|
      invariant b.Valid()
      invariant Holds(b, states[i])
      invariant forall j | i <= j < |edits| :: EditNumbers(edits[j], |edits[j].added|) !! b.seen
    {
      b.Apply(edits[i]);
      HoldsNext(b, states[i], edits[i], states[i + 1]);
    }
    v := b.SaveTo();
    SavedSorted(states, edits);
    SameLevels(v, states[|edits|]);
  }

  lemma {:induction false} SameLevels(v: Levels, w: Levels)
    requires |v| == |w| == NUM_LEVELS
    requires forall l: nat | l < NUM_LEVELS :: SortedBySmallest(v[l]) && SortedBySmallest(w[l])
    requires forall l: nat, f | l < NUM_LEVELS :: f in v[l] <==> f in w[l]
    ensures v == w
  {
    forall l | 0 <= l < NUM_LEVELS
      ensures v[l] == w[l]
    {
      SortedUnique(v[l], w[l]);
    }
  }

  /** WriteSnapshot: one edit that adds every file of a version, level by level. */
  function SnapshotAdditions(levels: Levels, l: nat): seq<(nat, File)>
    requires l <= |levels|
    decreases |levels| - l
  {
    if l == |levels| then [] else Additions(l, levels[l]) + SnapshotAdditions(levels, l + 1)
  }

  lemma {:induction false} SnapshotAdditionsMember(levels: Levels, l: nat, m: nat, f: File)
    requires l <= |levels|
    ensures (m, f) in SnapshotAdditions(levels, l) <==> l <= m < |levels| && f in levels[m]
    decreases |levels| - l
  {
    if l < |levels| {
      SnapshotAdditionsMember(levels, l + 1, m, f);
    }
  }

  /** Applied to an empty version, the snapshot edit gives the version back. */
  lemma {:induction false} SnapshotEditRestores(levels: Levels)
    requires |levels| == NUM_LEVELS && forall l: nat | l < NUM_LEVELS :: SortedBySmallest(levels[l])
    ensures Saved(NO_FILES, Edit({}, SnapshotAdditions(levels, 0)), levels)
  {
    var edit := Edit({}, SnapshotAdditions(levels, 0));
    forall l | 0 <= l < NUM_LEVELS
      ensures LevelSaved(NO_FILES[l], edit, l, levels[l])
    {
      forall f
        ensures f in levels[l] <==> (f in NO_FILES[l] && (l, f.number) !in edit.deleted) || (l, f) in edit.added
      {
        SnapshotAdditionsMember(levels, 0, l, f);
      }
    }
  }

  lemma {:induction false} AdditionsAt(level: nat, outs: seq<File>)
    ensures |Additions(level, outs)| == |outs|
    ensures forall i | 0 <= i < |outs| :: Additions(level, outs)[i] == (level, outs[i])
  {
    if outs != [] {
      AdditionsAt(level, outs[1..]);
    }
  }

  /** The snapshot edit names no (level, number) twice. */
  lemma {:induction false} SnapshotEditOk(levels: Levels, l: nat)
    requires l <= |levels| == NUM_LEVELS && UniqueNumbers(levels)
    requires forall m: nat | m < NUM_LEVELS :: SortedBySmallest(levels[m])
    ensures EditOk(Edit({}, SnapshotAdditions(levels, l)))
    ensures forall i | 0 <= i < |SnapshotAdditions(levels, l)| :: l <= SnapshotAdditions(levels, l)[i].0
    decreases NUM_LEVELS - l
  {
    if l < NUM_LEVELS {
      SnapshotEditOk(levels, l + 1);
      AdditionsAt(l, levels[l]);
      var rest := SnapshotAdditions(levels, l + 1);
      var edit, tail := Edit({}, SnapshotAdditions(levels, l)), Edit({}, rest);
      var n := |levels[l]|;
      forall i, j | 0 <= i < j < |edit.added|
        ensures NumberAt(edit, i) != NumberAt(edit, j)
      {
        if j < n {
          assert levels[l][i] in levels[l] && levels[l][j] in levels[l];
          assert BySmallest(levels[l][i], levels[l][j]) && !BySmallest(levels[l][i], levels[l][i]);
        } else if i >= n {
          assert NumberAt(edit, i) == NumberAt(tail, i - n) && NumberAt(edit, j) == NumberAt(tail, j - n);
        }
      }
    }
  }

  function SnapshotEdit(levels: Levels): Edit {
    Edit({}, SnapshotAdditions(levels, 0))
  }

  lemma {:induction false} SnapshotNumbers(levels: Levels)
    ensures EditNumbers(SnapshotEdit(levels), |SnapshotEdit(levels).added|) <= NumbersOf(levels)
  {
    var edit := SnapshotEdit(levels);
    forall p | p in EditNumbers(edit, |edit.added|)
      ensures p in NumbersOf(levels)
    {
      var i: nat :| i < |edit.added| && p == NumberAt(edit, i);
      SnapshotAdditionsMember(levels, 0, edit.added[i].0, edit.added[i].1);
      assert edit.added[i] in edit.added;
    }
  }

  /** A manifest starts with a snapshot of some version; the edits behind it add new numbers. What
      recovery needs of the whole list follows. */
  lemma {:induction false} SnapshotThenEdits(states: seq<Levels>, edits: seq<Edit>)
    requires Chain(states, edits) && |states[0]| == NUM_LEVELS && LevelsSorted(states[0]) && UniqueNumbers(states[0])
    requires AddedOnce(edits)
    requires forall i | 0 <= i < |edits| :: EditNumbers(edits[i], |edits[i].added|) !! NumbersOf(states[0])
    ensures Installed([NO_FILES] + states, [SnapshotEdit(states[0])] + edits)
    ensures AddedOnce([SnapshotEdit(states[0])] + edits)
  {
    hide EditNumbers, UniqueNumbers, NumbersOf, Saved, EditOk;
    var snap, all, versions := SnapshotEdit(states[0]), [SnapshotEdit(states[0])] + edits, [NO_FILES] + states;
    SnapshotEditRestores(states[0]);
    SnapshotEditOk(states[0], 0);
    SnapshotNumbers(states[0]);
    forall i | 0 <= i < |all| ensures EditOk(all[i]) && Saved(versions[i], all[i], versions[i + 1]) {
      if i > 0 {
        assert all[i] == edits[i - 1] && versions[i] == states[i - 1] && versions[i + 1] == states[i];
      }
    }
    forall i, j | 0 <= i < j < |all|
      ensures EditNumbers(all[i], |all[i].added|) !! EditNumbers(all[j], |all[j].added|)
    {
      assert all[j] == edits[j - 1];
      assert i > 0 ==> all[i] == edits[i - 1];
    }
  }

  /** Replaying a snapshot and the edits behind it gives the version installed last. */
  method RecoverFromSnapshot(edits: seq<Edit>, levels: Levels, ghost states: seq<Levels>) returns (v: Levels)
    requires Chain(states, edits) && states[0] == levels && |levels| == NUM_LEVELS && LevelsSorted(levels) && UniqueNumbers(levels)
    requires AddedOnce(edits)
    requires forall i | 0 <= i < |edits| :: EditNumbers(edits[i], |edits[i].added|) !! NumbersOf(levels)
    ensures v == states[|edits|]
  {
    hide Installed, AddedOnce, Chain, UniqueNumbers, NumbersOf, EditNumbers, LevelsSorted;
    SnapshotThenEdits(states, edits);
    v := Replay([SnapshotEdit(levels)] + edits, [NO_FILES] + states);
  }
}
