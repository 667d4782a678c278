/** What applying one edit to a version must produce (db/version_set.cc: VersionSet::Builder). */
module Edits {
  import opened InternalKeys
  import opened Versions

  /** A VersionEdit: files deleted and files added, each with its level. */
  datatype Edit = Edit(deleted: set<(nat, nat)>, added: seq<(nat, File)>)

  /** BySmallestKey: by smallest key, then by file number. */
  predicate BySmallest(a: File, b: File) {
    Before(a.smallest, b.smallest) || (!Before(b.smallest, a.smallest) && a.number < b.number)
  }

  predicate SortedBySmallest(fs: seq<File>) {
    forall i, j | 0 <= i < j < |fs| :: BySmallest(fs[i], fs[j])
  }

  ghost predicate LevelsSorted(levels: Levels) {
    forall l: nat | l < |levels| :: SortedBySmallest(levels[l])
  }

  /** `to` is `from` without the deleted files and with the added ones, sorted. */
  ghost predicate LevelSaved(from: seq<File>, edit: Edit, level: nat, to: seq<File>) {
    && SortedBySmallest(to)
    && forall f :: f in to <==> (f in from && (level, f.number) !in edit.deleted) || (level, f) in edit.added
  }

  ghost predicate Saved(from: Levels, edit: Edit, to: Levels) {
    && |from| == |to|
    && forall l | 0 <= l < |from| :: LevelSaved(from[l], edit, l, to[l])
  }

  /** A number names one file, at one level. */
  ghost predicate UniqueNumbers(levels: Levels) {
    forall l, m, f, g | 0 <= l < |levels| && 0 <= m < |levels| && f in levels[l] && g in levels[m] ::
      f.number == g.number ==> l == m && f == g
  }

  /** Sorting by smallest key puts files with disjoint ranges in order. */
  lemma {:induction false} SavedDisjoint(fs: seq<File>)
    requires SortedBySmallest(fs) && ValidFiles(fs)
    requires forall f, g | f in fs && g in fs && f != g :: Before(f.largest, g.smallest) || Before(g.largest, f.smallest)
    ensures Disjoint(fs)
  {
    ValidSpans(fs);
    forall i, j | 0 <= i < j < |fs|
      ensures Before(fs[i].largest, fs[j].smallest)
    {
      assert fs[i] in fs && fs[j] in fs && BySmallest(fs[i], fs[j]);
      assert !BySmallest(fs[i], fs[i]);
    }
  }

  /** Every file of outs, added at `level`. */
  function Additions(level: nat, outs: seq<File>): (r: seq<(nat, File)>)
    ensures forall m: nat, f: File :: (m, f) in r <==> m == level && f in outs
  {
    if outs == [] then [] else [(level, outs[0])] + Additions(level, outs[1..])
  }
}
