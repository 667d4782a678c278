/**
 * The compaction loop and its drop rules
 * (db/db_impl.cc: DoCompactionWork; db/version_set.cc: Compaction::IsBaseLevelForKey).
 */
module Compactions {
  import opened Basics
  import opened InternalKeys
  import opened Versions
  import opened Inputs
  import opened CompactionCuts

  /** No file below the output level has user in its range. */
  predicate BaseLevel(levels: Levels, level: nat, user: UserKey) {
    forall l | level + 2 <= l < |levels| :: forall f | f in levels[l] :: !CoversUser(f, user)
  }

  /** A newer version in E is already visible at snapshot s, so every reader from s on skips e. */
  ghost predicate Superseded(E: set<Entry>, e: Entry, s: nat) {
    exists x :: x in E && x.user == e.user && e.seqno < x.seqno <= s
  }

  predicate Obsolete(levels: Levels, level: nat, e: Entry, s: nat) {
    e.op.Delete? && e.seqno <= s && BaseLevel(levels, level, e.user)
  }

  /** The entries of E that a compaction writes out. */
  ghost predicate Kept(levels: Levels, level: nat, E: set<Entry>, e: Entry, s: nat) {
    e in E && !Superseded(E, e, s) && !Obsolete(levels, level, e, s)
  }

  class Compaction {
    const levels: Levels
    const level: nat
    const grandparents: seq<File>
    const maxGrandParentOverlap: nat
    var levelPtrs: seq<nat>
    var grandparentIndex: nat
    var seenKey: bool
    var overlappedBytes: nat
    ghost var last: Option<UserKey>
    /** the last key asked about, and the one at which the bytes passed were last counted from zero */
    ghost var key: Option<IKey>
    ghost var mark: Option<IKey>

    /** Each pointer has only moved past files that end before the last key asked about. */
    ghost predicate Valid()
      reads this`levelPtrs, this`last
    {
      && LevelRanges(levels)
      && level + 1 < NUM_LEVELS
      && |levelPtrs| == NUM_LEVELS
      && (forall l | level + 2 <= l < NUM_LEVELS :: levelPtrs[l] <= |levels[l]|)
      && (forall l, j | level + 2 <= l < NUM_LEVELS && 0 <= j < levelPtrs[l] ::
            last.Some? && levels[l][j].largest.user < last.value)
    }

    /** The bytes of the grandparents passed since mark have been counted. */
    ghost predicate Counting()
      reads this`grandparentIndex, this`seenKey, this`overlappedBytes, this`key, this`mark
    {
      && Ordered(grandparents) && grandparentIndex <= |grandparents|
      && seenKey == key.Some? == mark.Some?
      && if key.None? then grandparentIndex == 0 && overlappedBytes == 0
         else
           && !Before(key.value, mark.value)
           && (forall j | 0 <= j < grandparentIndex :: Before(grandparents[j].largest, key.value))
           && (forall j | grandparentIndex <= j < |grandparents| :: !Before(grandparents[j].largest, key.value))
           && overlappedBytes == PassedBytes(grandparents, mark.value, key.value)
    }

    constructor (levels: Levels, level: nat, grandparents: seq<File>, maxGrandParentOverlap: nat)
      requires LevelRanges(levels) && level + 1 < NUM_LEVELS && Ordered(grandparents)
      ensures Valid() && last == None && this.levels == levels && this.level == level
      ensures Counting() && key == None && this.grandparents == grandparents && this.maxGrandParentOverlap == maxGrandParentOverlap
    {
      this.levels, this.level := levels, level;
      this.grandparents, this.maxGrandParentOverlap := grandparents, maxGrandParentOverlap;
      levelPtrs := seq(NUM_LEVELS, _ => 0);
      grandparentIndex, seenKey, overlappedBytes := 0, false, 0;
      last, key, mark := None, None, None;
    }

    /** Whether more than maxGrandParentOverlap bytes of the grandparents have been passed since the last time the
        answer was yes, or since the first key. */
    method ShouldStopBefore(k: IKey) returns (stop: bool)
      requires Counting() && (key.Some? ==> !Before(k, key.value))
      modifies this`grandparentIndex, this`seenKey, this`overlappedBytes, this`key, this`mark
      ensures Counting() && key == Some(k)
      ensures var since := if old(mark).Some? then old(mark).value else k;
        && (stop <==> PassedBytes(grandparents, since, k) > maxGrandParentOverlap)
        && mark == Some(if stop then k else since)
    {
      hide PassedBytes;
      ghost var since := if mark.Some? then mark.value else k;
      PassOn(k, since);
      while grandparentIndex < |grandparents| && Before(grandparents[grandparentIndex].largest, k)
        invariant grandparentIndex <= |grandparents| && overlappedBytes == PassedBytes(grandparents[..grandparentIndex], since, k)
        invariant forall j | 0 <= j < grandparentIndex :: Before(grandparents[j].largest, k)
        invariant seenKey ==> forall j | grandparentIndex <= j < |grandparents| :: !Before(grandparents[j].largest, since)
        invariant !seenKey ==> since == k
      {
        PassedMore(grandparents, grandparentIndex, since, k);
        if seenKey {
          overlappedBytes := overlappedBytes + grandparents[grandparentIndex].size;
        }
        grandparentIndex := grandparentIndex + 1;
      }
      AllBehind(grandparents, grandparentIndex, k);
      PassedPrefix(grandparents, grandparentIndex, since, k);
      PassedNothing(grandparents, k);
      seenKey := true;
      key, mark := Some(k), Some(since);
      stop := false;
      if overlappedBytes > maxGrandParentOverlap {
        overlappedBytes := 0;
        mark := Some(k);
        stop := true;
      }
    }

    lemma {:induction false} PassOn(k: IKey, since: IKey)
      requires Counting() && (key.Some? ==> !Before(k, key.value)) && since == (if mark.Some? then mark.value else k)
      ensures overlappedBytes == PassedBytes(grandparents[..grandparentIndex], since, k)
      ensures forall j | 0 <= j < grandparentIndex :: Before(grandparents[j].largest, k)
      ensures seenKey ==> forall j | grandparentIndex <= j < |grandparents| :: !Before(grandparents[j].largest, since)
    {
      if key.Some? {
        PassedPrefix(grandparents, grandparentIndex, since, key.value);
        PassedSame(grandparents[..grandparentIndex], since, key.value, k);
      }
    }

    /** Asked about ascending keys, the moving pointers give the direct answer. */
    method IsBaseLevelForKey(user: UserKey) returns (b: bool)
      requires Valid() && (last.Some? ==> last.value <= user)
      modifies this`levelPtrs, this`last
      ensures Valid() && last == Some(user)
      ensures b <==> BaseLevel(levels, level, user)
    {
      last := Some(user);
      for lvl := level + 2 to NUM_LEVELS
        invariant Valid() && last == Some(user)
        invariant forall l | level + 2 <= l < lvl :: forall f | f in levels[l] :: !CoversUser(f, user)
      {
        var covered := AdvancePointer(lvl, user);
        if covered {
          return false;
        }
      }
      b := true;
    }

    method AdvancePointer(lvl: nat, user: UserKey) returns (covered: bool)
      requires Valid() && last == Some(user) && level + 2 <= lvl < NUM_LEVELS
      modifies this`levelPtrs
      ensures Valid() && last == Some(user)
      ensures covered <==> exists f :: f in levels[lvl] && CoversUser(f, user)
    {
      var files := levels[lvl];
      while levelPtrs[lvl] < |files|
        invariant Valid() && last == Some(user) && files == levels[lvl]
        decreases |files| - levelPtrs[lvl]
      {
        var f := files[levelPtrs[lvl]];
        if user <= f.largest.user {
          NotCoveredElsewhere(files, levelPtrs[lvl], user);
          return user >= f.smallest.user;
        }
        levelPtrs := levelPtrs[lvl := levelPtrs[lvl] + 1];
      }
      covered := false;
      forall f | f in files
        ensures !CoversUser(f, user)
      {
        var j :| 0 <= j < |files| && files[j] == f;
        assert levels[lvl][j].largest.user < user;
      }
    }
  }

  /** In a sorted level the first file that does not end before k has none behind it that does. */
  lemma {:induction false} AllBehind(fs: seq<File>, i: nat, k: IKey)
    requires Ordered(fs) && i <= |fs| && (i < |fs| ==> !Before(fs[i].largest, k))
    ensures forall j | i <= j < |fs| :: !Before(fs[j].largest, k)
  {
    forall j | i < j < |fs|
      ensures !Before(fs[j].largest, k)
    {
      assert Before(fs[i].largest, fs[j].smallest) && !Before(fs[j].largest, fs[j].smallest);
    }
  }

  /** In a sorted level the first file that ends at or after user decides whether any file covers it. */
  lemma {:induction false} NotCoveredElsewhere(files: seq<File>, i: nat, user: UserKey)
    requires Ordered(files) && i < |files| && user <= files[i].largest.user
    requires forall j | 0 <= j < i :: files[j].largest.user < user
    ensures (exists f :: f in files && CoversUser(f, user)) <==> CoversUser(files[i], user)
  {
    assert forall j | 0 <= j < |files| :: files[j] in files;
    forall f | f in files && CoversUser(f, user)
      ensures CoversUser(files[i], user)
    {
      var j :| 0 <= j < |files| && files[j] == f;
    }
  }

  /** Sorted entries of one user key run from newer to older. */
  lemma {:induction false} NewerFirst(es: seq<Entry>, i: nat, j: nat)
    requires SortedEntries(es) && Unambiguous(EntrySet(es)) && i < j < |es|
    ensures es[i].user < es[j].user || (es[i].user == es[j].user && es[i].seqno > es[j].seqno)
  {
    assert es[i] in EntrySet(es) && es[j] in EntrySet(es);
    assert Before(es[i].Key(), es[j].Key());
  }

  /** Rule (A) looks only at the entry just before, and that is enough. */
  lemma {:induction false} HiddenByPrevious(es: seq<Entry>, i: nat, s: nat)
    requires SortedEntries(es) && Unambiguous(EntrySet(es)) && i < |es|
    ensures Superseded(EntrySet(es), es[i], s) <==>
            i > 0 && es[i - 1].user == es[i].user && es[i - 1].seqno <= s
  {
    if i > 0 && es[i - 1].user == es[i].user && es[i - 1].seqno <= s {
      NewerFirst(es, i - 1, i);
      assert es[i - 1] in EntrySet(es);
    }
    if Superseded(EntrySet(es), es[i], s) {
      var x :| x in EntrySet(es) && x.user == es[i].user && es[i].seqno < x.seqno <= s;
      var j :| 0 <= j < |es| && es[j] == x;
      if j > i {
        NewerFirst(es, i, j);
      }
      if j < i - 1 {
        NewerFirst(es, j, i - 1);
        NewerFirst(es, i - 1, i);
      }
    }
  }

  /** The two drop rules, applied to entry i of the merged inputs. */
  method Drops(c: Compaction, input: seq<Entry>, i: nat, lastSequenceForKey: nat, smallestSnapshot: nat) returns (drop: bool)
    requires c.Valid() && i < |input| && (c.last.Some? ==> c.last.value <= input[i].user)
    requires SortedEntries(input) && Unambiguous(EntrySet(input))
    requires lastSequenceForKey == if i > 0 && input[i - 1].user == input[i].user then input[i - 1].seqno else MAX_SEQUENCE
    requires smallestSnapshot < MAX_SEQUENCE
    modifies c`levelPtrs, c`last
    ensures c.Valid() && (c.last.Some? ==> c.last.value <= input[i].user)
    ensures drop <==> !Kept(c.levels, c.level, EntrySet(input), input[i], smallestSnapshot)
  {
    var e := input[i];
    HiddenByPrevious(input, i, smallestSnapshot);
    drop := false;
    if lastSequenceForKey <= smallestSnapshot {
      drop := true;
    } else if e.op.Delete? && e.seqno <= smallestSnapshot {
      drop := c.IsBaseLevelForKey(e.user);
    }
  }

  method FinishOutputFile(outputs: seq<seq<Entry>>, builder: seq<Entry>) returns (r: seq<seq<Entry>>)
    ensures r == outputs + [builder] && Flatten(r) == Flatten(outputs) + builder
  {
    FlattenAppend(outputs, builder);
    r := outputs + [builder];
  }

  /** The output files so far and the one that is open, when the grandparents have been asked about key. */
  ghost predicate CutSoFar(gs: seq<File>, limit: nat, full: seq<Entry> -> bool, outputs: seq<seq<Entry>>, builder: seq<Entry>,
                           mark: Option<IKey>, key: Option<IKey>) {
    if key.None? || mark.None? then outputs == [] && builder == []
    else !Before(key.value, mark.value) && Cutting(gs, limit, full, outputs, builder, mark.value, key.value)
  }

  /** Before entry e: the open file is ended if the grandparents ask for it. */
  method CutBefore(c: Compaction, outputs0: seq<seq<Entry>>, builder0: seq<Entry>, e: Entry, ghost full: seq<Entry> -> bool)
    returns (outputs: seq<seq<Entry>>, builder: seq<Entry>)
    requires c.Counting() && (c.key.Some? ==> Before(c.key.value, e.Key()))
    requires CutSoFar(c.grandparents, c.maxGrandParentOverlap, full, outputs0, builder0, c.mark, c.key)
    modifies c`grandparentIndex, c`seenKey, c`overlappedBytes, c`key, c`mark
    ensures c.Counting() && c.key == Some(e.Key()) && c.mark.Some?
    ensures CutSoFar(c.grandparents, c.maxGrandParentOverlap, full, outputs, builder, c.mark, c.key)
    ensures PassedBytes(c.grandparents, c.mark.value, e.Key()) <= c.maxGrandParentOverlap
    ensures Flatten(outputs) + builder == Flatten(outputs0) + builder0
  {
    hide PassedBytes, Cutting, Flatten;
    ghost var gs, limit, mark, key := c.grandparents, c.maxGrandParentOverlap, c.mark, c.key;
    NothingCut(gs, limit, full);
    PassedNothing(gs, e.Key());
    var stop := c.ShouldStopBefore(e.Key());
    outputs, builder := outputs0, builder0;
    if stop && builder != [] {
      outputs := FinishOutputFile(outputs, builder);
      builder := [];
      StopsHere(gs, limit, full, outputs0, builder0, mark.value, key.value, e.Key());
    } else if key.Some? {
      if stop {
        StopsEmpty(gs, limit, full, outputs, mark.value, key.value, e.Key());
      } else {
        GoesOn(gs, limit, full, outputs, builder, mark.value, key.value, e.Key());
      }
    }
  }

  /** Entry e goes into the open file, which is ended if that makes it full. */
  method AddToOutput(c: Compaction, outputs0: seq<seq<Entry>>, builder0: seq<Entry>, e: Entry, full: seq<Entry> -> bool)
    returns (outputs: seq<seq<Entry>>, builder: seq<Entry>)
    requires c.key == Some(e.Key()) && c.mark.Some? && PassedBytes(c.grandparents, c.mark.value, e.Key()) <= c.maxGrandParentOverlap
    requires CutSoFar(c.grandparents, c.maxGrandParentOverlap, full, outputs0, builder0, c.mark, c.key)
    ensures CutSoFar(c.grandparents, c.maxGrandParentOverlap, full, outputs, builder, c.mark, c.key)
    ensures Flatten(outputs) + builder == Flatten(outputs0) + builder0 + [e]
  {
    hide PassedBytes, Cutting, Flatten;
    outputs, builder := outputs0, builder0 + [e];
    EntryAdded(c.grandparents, c.maxGrandParentOverlap, full, outputs0, builder0, c.mark.value, e);
    if full(builder) {
      outputs := FinishOutputFile(outputs, builder);
      builder := [];
    }
  }

  lemma {:induction false} AllCut(gs: seq<File>, limit: nat, full: seq<Entry> -> bool, outputs: seq<seq<Entry>>, builder: seq<Entry>,
                                  mark: Option<IKey>, key: Option<IKey>)
    requires CutSoFar(gs, limit, full, outputs, builder, mark, key)
    ensures Cut(gs, limit, full, if builder == [] then outputs else outputs + [builder])
  {
    hide Cut, Cutting;
    NothingCut(gs, limit, full);
    if key.Some? && mark.Some? {
      LastCut(gs, limit, full, outputs, builder, mark.value, key.value);
    }
  }

  lemma {:induction false} CutNotEmpty(gs: seq<File>, limit: nat, full: seq<Entry> -> bool, outputs: seq<seq<Entry>>)
    requires Cut(gs, limit, full, outputs)
    ensures forall o | o in outputs :: |o| > 0
  {
    hide PassedBytes;
  }

  /**
   * Walks the merged inputs in order, drops what no live reader can need and cuts the rest into
   * output files. full stands for the file-size test on the entries of the open file.
   */
  method DoCompactionWork(c: Compaction, input: seq<Entry>, smallestSnapshot: nat, full: seq<Entry> -> bool)
    returns (outputs: seq<seq<Entry>>)
    requires c.Valid() && c.last == None && c.Counting() && c.key == None
    requires SortedEntries(input) && Unambiguous(EntrySet(input))
    requires smallestSnapshot < MAX_SEQUENCE
    modifies c
    ensures forall e :: e in Flatten(outputs) <==> Kept(c.levels, c.level, EntrySet(input), e, smallestSnapshot)
    ensures SortedEntries(Flatten(outputs)) && forall o | o in outputs :: |o| > 0
    ensures Cut(c.grandparents, c.maxGrandParentOverlap, full, outputs)
    ensures CollectedEntries(c.levels, c.level, Flatten(outputs), smallestSnapshot)
  {
    hide CollectedEntries, WrittenSoFar, Kept, Unambiguous, SortedEntries, Flatten, CutSoFar, Cut;
    outputs := [];
    NothingWritten(c.levels, c.level, input, smallestSnapshot);
    var builder: seq<Entry> := [];
    var currentUserKey: Option<UserKey> := None;
    var lastSequenceForKey := MAX_SEQUENCE;
    ghost var written := [];
    assert CutSoFar(c.grandparents, c.maxGrandParentOverlap, full, outputs, builder, c.mark, c.key) by {
      NoneCut(c.grandparents, c.maxGrandParentOverlap, full, c.mark);
    }
    for i := 0 to |input|
      invariant c.Valid() && (c.last.Some? ==> i > 0 && c.last.value <= input[i - 1].user)
      invariant c.Counting() && c.key == if i == 0 then None else Some(input[i - 1].Key())
      invariant currentUserKey == if i == 0 then None else Some(input[i - 1].user)
      invariant i > 0 ==> lastSequenceForKey == input[i - 1].seqno
      invariant written == Flatten(outputs) + builder
      invariant CutSoFar(c.grandparents, c.maxGrandParentOverlap, full, outputs, builder, c.mark, c.key)
      invariant WrittenSoFar(c.levels, c.level, input, i, smallestSnapshot, written)
    {
      if i > 0 {
        NewerFirst(input, i - 1, i);
        SortedAt(input, i - 1, i);
      }
      outputs, builder := CutBefore(c, outputs, builder, input[i], full);
      if currentUserKey != Some(input[i].user) {
        currentUserKey := Some(input[i].user);
        lastSequenceForKey := MAX_SEQUENCE;
      }
      var drop := Drops(c, input, i, lastSequenceForKey, smallestSnapshot);
      lastSequenceForKey := input[i].seqno;
      WriteNext(c.levels, c.level, input, i, smallestSnapshot, written);
      if !drop {
        outputs, builder := AddToOutput(c, outputs, builder, input[i], full);
        written := written + [input[i]];
      }
    }
    AllCut(c.grandparents, c.maxGrandParentOverlap, full, outputs, builder, c.mark, c.key);
    if builder != [] {
      outputs := FinishOutputFile(outputs, builder);
    }
    assert written == Flatten(outputs);
    AllWritten(c.levels, c.level, input, smallestSnapshot, written);
    CutNotEmpty(c.grandparents, c.maxGrandParentOverlap, full, outputs);
    KeptIsCollected(c.levels, c.level, EntrySet(input), Flatten(outputs), smallestSnapshot);
  }

  /** Of the entries of a user key at most one is as old as s, and a deletion as old as that is there only if a
      file further down may hold the key. */
  ghost predicate CollectedEntries(levels: Levels, level: nat, es: seq<Entry>, s: nat) {
    && (forall e, x | e in es && x in es && e.user == x.user && e.seqno < x.seqno :: s < x.seqno)
    && (forall e | e in es && e.op.Delete? && e.seqno <= s ::
          exists l, f :: level + 2 <= l < |levels| && f in levels[l] && f.smallest.user <= e.user <= f.largest.user)
  }

  lemma {:induction false} KeptIsCollected(levels: Levels, level: nat, E: set<Entry>, es: seq<Entry>, s: nat)
    requires forall e :: e in es <==> Kept(levels, level, E, e, s)
    ensures CollectedEntries(levels, level, es, s)
  {
    forall e | e in es && e.op.Delete? && e.seqno <= s
      ensures exists l, f :: level + 2 <= l < |levels| && f in levels[l] && f.smallest.user <= e.user <= f.largest.user
    {
      assert !Obsolete(levels, level, e, s);
      var l :| level + 2 <= l < |levels| && exists f :: f in levels[l] && CoversUser(f, e.user);
      var f :| f in levels[l] && CoversUser(f, e.user);
      assert f.smallest.user <= e.user <= f.largest.user;
    }
    forall e, x | e in es && x in es && e.user == x.user && e.seqno < x.seqno
      ensures s < x.seqno
    {
      assert x in E && !Superseded(E, e, s);
    }
  }

  lemma {:induction false} NoneCut(gs: seq<File>, limit: nat, full: seq<Entry> -> bool, mark: Option<IKey>)
    ensures CutSoFar(gs, limit, full, [], [], mark, None)
  {
  }

  lemma {:induction false} SortedAt(es: seq<Entry>, i: nat, j: nat)
    requires SortedEntries(es) && i < j < |es|
    ensures Before(es[i].Key(), es[j].Key())
  {
  }

  ghost predicate WrittenSoFar(levels: Levels, level: nat, input: seq<Entry>, i: nat, s: nat, written: seq<Entry>)
    requires i <= |input|
  {
    && (forall e :: e in written <==> e in input[..i] && Kept(levels, level, EntrySet(input), e, s))
    && SortedEntries(written)
  }

  lemma {:induction false} NothingWritten(levels: Levels, level: nat, input: seq<Entry>, s: nat)
    ensures WrittenSoFar(levels, level, input, 0, s, []) && Flatten<Entry>([]) == []
  {
  }

  lemma {:induction false} AllWritten(levels: Levels, level: nat, input: seq<Entry>, s: nat, written: seq<Entry>)
    requires WrittenSoFar(levels, level, input, |input|, s, written)
    ensures SortedEntries(written) && forall e :: e in written <==> Kept(levels, level, EntrySet(input), e, s)
  {
    assert input[..|input|] == input;
  }

  lemma {:induction false} WriteNext(levels: Levels, level: nat, input: seq<Entry>, i: nat, s: nat, written: seq<Entry>)
    requires i < |input| && SortedEntries(input) && WrittenSoFar(levels, level, input, i, s, written)
    ensures WrittenSoFar(levels, level, input, i + 1, s,
                         if Kept(levels, level, EntrySet(input), input[i], s) then written + [input[i]] else written)
  {
    assert input[..i + 1] == input[..i] + [input[i]];
    AppendSorted(written, input, i);
  }

  lemma {:induction false} AppendSorted(written: seq<Entry>, input: seq<Entry>, i: nat)
    requires SortedEntries(written) && SortedEntries(input) && i < |input|
    requires forall e | e in written :: e in input[..i]
    ensures SortedEntries(written + [input[i]])
  {
    forall k | 0 <= k < |written|
      ensures Before(written[k].Key(), input[i].Key())
    {
      assert written[k] in input[..i];
      var j :| 0 <= j < i && input[j] == written[k];
    }
  }
}
