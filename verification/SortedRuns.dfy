/** Sorted runs of entries: inserting, merging and cutting into files. */
module SortedRuns {
  import opened Basics
  import opened InternalKeys
  import opened Versions

  /** Where the skip list or the merge puts an entry. */
  function InsertEntry(es: seq<Entry>, e: Entry): seq<Entry> {
    if es == [] || Before(e.Key(), es[0].Key()) then [e] + es
    else [es[0]] + InsertEntry(es[1..], e)
  }

  lemma {:induction false} InsertEntrySorted(es: seq<Entry>, e: Entry)
    requires SortedEntries(es)
    requires forall x | x in es :: x.user != e.user || x.seqno != e.seqno
    ensures SortedEntries(InsertEntry(es, e))
    ensures forall x :: x in InsertEntry(es, e) <==> x in es || x == e
  {
    if es != [] && !Before(e.Key(), es[0].Key()) {
      InsertEntrySorted(es[1..], e);
      var rest := InsertEntry(es[1..], e);
      assert es[0] in es;
      forall j | 0 <= j < |rest|
        ensures Before(es[0].Key(), rest[j].Key())
      {
        assert rest[j] in rest;
        if rest[j] != e {
          var k :| 1 <= k < |es| && es[k] == rest[j];
        }
      }
    } else if es != [] {
      forall j | 0 <= j < |es|
        ensures Before(e.Key(), es[j].Key())
      {
      }
    }
  }

  ghost predicate PairwiseApart(files: seq<File>) {
    forall i, j | 0 <= i < j < |files| :: FileEntries(files[i]) !! FileEntries(files[j])
  }

  /** The merged input of a compaction: all entries of the files in order (MakeInputIterator). */
  method MergeEntries(files: seq<File>) returns (es: seq<Entry>)
    requires ValidFiles(files) && PairwiseApart(files) && Unambiguous(LevelEntries(files))
    ensures SortedEntries(es) && EntrySet(es) == LevelEntries(files)
  {
    es := [];
    for i := 0 to |files|
      invariant SortedEntries(es)
      invariant forall e :: e in es <==> exists k :: 0 <= k < i && e in files[k].entries
    {
      es := MergeFile(files, i, es);
    }
  }

  method MergeFile(files: seq<File>, i: nat, es0: seq<Entry>) returns (es: seq<Entry>)
    requires ValidFiles(files) && PairwiseApart(files) && Unambiguous(LevelEntries(files)) && i < |files|
    requires SortedEntries(es0) && forall e :: e in es0 <==> exists k :: 0 <= k < i && e in files[k].entries
    ensures SortedEntries(es)
    ensures forall e :: e in es <==> exists k :: 0 <= k < i + 1 && e in files[k].entries
  {
    es := es0;
    var f := files[i];
    for j := 0 to |f.entries|
      invariant SortedEntries(es)
      invariant forall e :: e in es <==> e in es0 || e in f.entries[..j]
    {
      var e := f.entries[j];
      assert f.entries[..j + 1] == f.entries[..j] + [e];
      forall x | x in es
        ensures x.user != e.user || x.seqno != e.seqno
      {
        NotYetMerged(files, i, j, es0, x);
      }
      InsertEntrySorted(es, e);
      es := InsertEntry(es, e);
    }
    assert f.entries[..|f.entries|] == f.entries;
  }

  lemma {:induction false} NotYetMerged(files: seq<File>, i: nat, j: nat, es0: seq<Entry>, x: Entry)
    requires ValidFiles(files) && PairwiseApart(files) && Unambiguous(LevelEntries(files)) && i < |files| && j < |files[i].entries|
    requires forall e | e in es0 :: exists k :: 0 <= k < i && e in files[k].entries
    requires x in es0 || x in files[i].entries[..j]
    ensures x.user != files[i].entries[j].user || x.seqno != files[i].entries[j].seqno
  {
    var f, e := files[i], files[i].entries[j];
    assert f in files && e in f.entries && e in LevelEntries(files);
    if x in es0 {
      var k :| 0 <= k < i && x in files[k].entries;
      assert files[k] in files && x in LevelEntries(files);
      assert x in FileEntries(files[k]) && e in FileEntries(f);
    } else {
      var m :| 0 <= m < j && f.entries[m] == x;
      assert f.entries[m] in f.entries;
      assert x in LevelEntries(files);
      assert Before(f.entries[m].Key(), f.entries[j].Key());
    }
  }

  /** The output tables of a compaction, numbered from n. */
  function FilesOf(outputs: seq<seq<Entry>>, n: nat, sizes: nat -> nat): seq<File>
    requires forall o | o in outputs :: |o| > 0
  {
    if outputs == [] then []
    else
      var last := outputs[|outputs| - 1];
      FilesOf(outputs[..|outputs| - 1], n, sizes)
        + [File(n + |outputs| - 1, sizes(|outputs| - 1), last[0].Key(), last[|last| - 1].Key(), last)]
  }

  lemma {:induction false} FilesOfAt(outputs: seq<seq<Entry>>, n: nat, sizes: nat -> nat, i: nat)
    requires (forall o | o in outputs :: |o| > 0) && i < |outputs|
    ensures |FilesOf(outputs, n, sizes)| == |outputs| && outputs[i] != []
    ensures var f := FilesOf(outputs, n, sizes)[i];
      f.entries == outputs[i] && f.smallest == outputs[i][0].Key() && f.largest == outputs[i][|outputs[i]| - 1].Key()
  {
    var init, last := outputs[..|outputs| - 1], outputs[|outputs| - 1];
    assert last in outputs;
    FilesOfLength(init, n, sizes);
    if i < |init| {
      FilesOfAt(init, n, sizes, i);
    }
  }

  lemma {:induction false} FilesOfLength(outputs: seq<seq<Entry>>, n: nat, sizes: nat -> nat)
    requires forall o | o in outputs :: |o| > 0
    ensures |FilesOf(outputs, n, sizes)| == |outputs|
  {
    if outputs != [] {
      FilesOfLength(outputs[..|outputs| - 1], n, sizes);
    }
  }

  lemma {:induction false} FlattenInit(outputs: seq<seq<Entry>>)
    requires outputs != []
    ensures Flatten(outputs) == Flatten(outputs[..|outputs| - 1]) + outputs[|outputs| - 1]
  {
    FlattenAppend(outputs[..|outputs| - 1], outputs[|outputs| - 1]);
    assert outputs == outputs[..|outputs| - 1] + [outputs[|outputs| - 1]];
  }

  /** fs are sorted files with disjoint ranges that hold exactly the entries of `whole`. */
  ghost predicate CutInto(fs: seq<File>, n: nat, whole: seq<Entry>) {
    && ValidFiles(fs) && Ordered(fs)
    && (forall i | 0 <= i < |fs| :: fs[i].number == n + i)
    && (forall f, e | f in fs && e in f.entries :: e in whole)
    && (forall e | e in whole :: e in LevelEntries(fs))
  }

  lemma {:induction false} SplitSorted(front: seq<Entry>, last: seq<Entry>)
    requires SortedEntries(front + last)
    ensures SortedEntries(front) && SortedEntries(last)
  {
    var whole := front + last;
    assert forall i | 0 <= i < |front| :: whole[i] == front[i];
    assert forall i | 0 <= i < |last| :: whole[|front| + i] == last[i];
  }

  /** Cutting a sorted run gives sorted files with disjoint ranges. */
  lemma {:induction false} FilesOfSorted(outputs: seq<seq<Entry>>, n: nat, sizes: nat -> nat)
    requires (forall o | o in outputs :: |o| > 0) && SortedEntries(Flatten(outputs))
    ensures |FilesOf(outputs, n, sizes)| == |outputs| && CutInto(FilesOf(outputs, n, sizes), n, Flatten(outputs))
  {
    hide CutInto;
    if outputs == [] {
      CutNothing(n);
    } else {
      var init, last := outputs[..|outputs| - 1], outputs[|outputs| - 1];
      assert last in outputs;
      FlattenInit(outputs);
      SplitSorted(Flatten(init), last);
      FilesOfSorted(init, n, sizes);
      AppendOutput(FilesOf(init, n, sizes), n, Flatten(init), last,
                   File(n + |outputs| - 1, sizes(|outputs| - 1), last[0].Key(), last[|last| - 1].Key(), last));
    }
  }

  lemma {:induction false} CutNothing(n: nat)
    ensures CutInto([], n, [])
  {
  }

  lemma {:induction false} AppendOutput(fs: seq<File>, n: nat, front: seq<Entry>, last: seq<Entry>, f: File)
    requires CutInto(fs, n, front) && f.Valid() && f.entries == last && f.number == n + |fs|
    requires SortedEntries(front + last)
    ensures CutInto(fs + [f], n, front + last)
  {
    var whole := front + last;
    ValidSpans([f]);
    forall i | 0 <= i < |fs|
      ensures Before(fs[i].largest, f.smallest)
    {
      assert fs[i] in fs;
      var e := LastEntry(fs[i]);
      assert e in front;
      var k :| 0 <= k < |front| && front[k] == e;
      assert whole[k] == e && whole[|front|] == last[0];
    }
    assert [f][0] == f;
    forall e | e in whole
      ensures e in LevelEntries(fs + [f])
    {
      if e in front {
        var g :| g in fs && e in g.entries;
        assert g in fs + [f];
      } else {
        assert f in fs + [f];
      }
    }
  }
}
