/**
 * The edits that a run of the store logs (db/version_set.cc: LogAndApply): they add no (level, number)
 * twice, so replaying them behind a snapshot rebuilds the files of the store.
 */
module ManifestRuns {
  import opened Basics
  import opened InternalKeys
  import opened Versions
  import opened Inputs
  import opened Edits
  import opened Builders
  import opened Lsm
  import opened LsmSafety
  import opened LogFormat
  import opened Manifests
  import VersionEdits

  /** The edit of a flush; an empty memtable leaves no file. */
  function FlushEdit(imm: set<Entry>, level: nat, file: File): Edit {
    if imm == {} then Edit({}, []) else Edit({}, [(level, file)])
  }

  function MoveEdit(level: nat, file: File): Edit {
    Edit({(level, file.number)}, [(level + 1, file)])
  }

  function CompactEdit(level: nat, in0: seq<File>, in1: seq<File>, outs: seq<File>): Edit {
    Edit(Deletions(level, in0, in1), Additions(level + 1, outs))
  }

  /** The step from a to b changes files and logs this edit. */
  ghost predicate Logs(a: Db, b: Db, edit: Edit) {
    || (exists level, file :: FlushStep(a, b, level, file) && edit == FlushEdit(ImmEntries(a), level, file))
    || (exists level, file :: MoveStep(a, b, level, file) && edit == MoveEdit(level, file))
    || (exists level, in0, in1, outs :: CompactStep(a, b, level, in0, in1, outs) && edit == CompactEdit(level, in0, in1, outs))
  }

  /** used holds every (level, number) added so far: numbers are below the next one, and a file has
      never been deeper than it is. */
  ghost predicate Past(levels: Levels, used: set<(nat, nat)>, nextFile: nat) {
    && NumbersOf(levels) <= used
    && (forall p | p in used :: p.1 < nextFile)
    && (forall l: nat, f, p | l < |levels| && f in levels[l] && p in used && p.1 == f.number :: p.0 <= l)
  }

  /** What one logged edit must satisfy. */
  ghost predicate Fresh(a: Levels, b: Levels, edit: Edit, used: set<(nat, nat)>, nextFile: nat) {
    && EditOk(edit) && EditNumbers(edit, |edit.added|) !! used
    && Saved(a, edit, b) && Past(b, used + EditNumbers(edit, |edit.added|), nextFile)
  }

  lemma {:induction false} OneNumber(level: nat, file: File, deleted: set<(nat, nat)>)
    requires level < NUM_LEVELS && forall p | p in deleted :: p.0 < NUM_LEVELS
    ensures var edit := Edit(deleted, [(level, file)]);
      EditOk(edit) && EditNumbers(edit, 1) == {(level, file.number)}
  {
    var edit := Edit(deleted, [(level, file)]);
    assert NumberAt(edit, 0) == (level, file.number);
    forall p | p in EditNumbers(edit, 1) ensures p == (level, file.number) {
      var i: nat :| i < 1 && p == NumberAt(edit, i);
    }
  }

  lemma {:induction false} NumberIn(levels: Levels, l: nat, f: File)
    requires l < |levels| && f in levels[l]
    ensures (l, f.number) in NumbersOf(levels)
  {
  }

  /** A level after an edit. */
  lemma {:induction false} SavedMember(a: Levels, edit: Edit, b: Levels, l: nat, f: File)
    requires Saved(a, edit, b) && l < |b| && f in b[l]
    ensures (f in a[l] && (l, f.number) !in edit.deleted) || (l, f) in edit.added
  {
    assert LevelSaved(a[l], edit, l, b[l]);
  }

  /** New files under new numbers. */
  lemma {:induction false} FreshAdds(a: Levels, b: Levels, edit: Edit, used: set<(nat, nat)>, nextFile: nat, next: nat)
    requires Past(a, used, nextFile) && Saved(a, edit, b) && EditOk(edit) && nextFile <= next
    requires forall i | 0 <= i < |edit.added| :: nextFile <= edit.added[i].1.number < next
    requires forall i, j | 0 <= i < j < |edit.added| :: edit.added[i].1.number != edit.added[j].1.number
    ensures Fresh(a, b, edit, used, next)
  {
    hide Saved, EditOk;
    var added := EditNumbers(edit, |edit.added|);
    forall p | p in added ensures nextFile <= p.1 < next {
      var i: nat :| i < |edit.added| && p == NumberAt(edit, i);
    }
    forall l: nat, f | l < |b| && f in b[l]
      ensures (l, f.number) in used + added
      ensures forall p | p in used + added && p.1 == f.number :: p.0 <= l
    {
      FreshMember(a, b, edit, used, nextFile, l, f);
    }
  }

  lemma {:induction false} FreshMember(a: Levels, b: Levels, edit: Edit, used: set<(nat, nat)>, nextFile: nat, l: nat, f: File)
    requires Past(a, used, nextFile) && Saved(a, edit, b) && l < |b| && f in b[l]
    requires forall i | 0 <= i < |edit.added| :: nextFile <= edit.added[i].1.number
    requires forall i, j | 0 <= i < j < |edit.added| :: edit.added[i].1.number != edit.added[j].1.number
    ensures (l, f.number) in used + EditNumbers(edit, |edit.added|)
    ensures forall p | p in used + EditNumbers(edit, |edit.added|) && p.1 == f.number :: p.0 <= l
  {
    SavedMember(a, edit, b, l, f);
    hide Saved;
    var added := EditNumbers(edit, |edit.added|);
    if f in a[l] {
      NumberIn(a, l, f);
    } else {
      var k :| 0 <= k < |edit.added| && edit.added[k] == (l, f);
      assert NumberAt(edit, k) in added;
    }
    forall p | p in used + added && p.1 == f.number ensures p.0 <= l {
      if p in added {
        var i: nat :| i < |edit.added| && p == NumberAt(edit, i);
      }
    }
  }

  /** A file moves one level down, where it has never been. */
  lemma {:induction false} FreshMove(a: Levels, b: Levels, level: nat, file: File, used: set<(nat, nat)>, nextFile: nat)
    requires Past(a, used, nextFile) && UniqueNumbers(a) && |a| == NUM_LEVELS && level + 1 < NUM_LEVELS && file in a[level]
    requires Saved(a, MoveEdit(level, file), b)
    ensures Fresh(a, b, MoveEdit(level, file), used, nextFile)
  {
    var edit := MoveEdit(level, file);
    OneNumber(level + 1, file, edit.deleted);
    NumberIn(a, level, file);
    forall l: nat, f | l < |b| && f in b[l]
      ensures (l, f.number) in used + {(level + 1, file.number)}
      ensures forall p | p in used + {(level + 1, file.number)} && p.1 == f.number :: p.0 <= l
    {
      SavedMember(a, edit, b, l, f);
      if f in a[l] && (l, f.number) !in edit.deleted {
        NumberIn(a, l, f);
        assert f.number == file.number ==> l == level && f == file;
      } else {
        assert l == level + 1 && f == file;
      }
    }
  }

  lemma {:induction false} NothingSaved(levels: Levels)
    requires LevelsSorted(levels)
    ensures Saved(levels, Edit({}, []), levels)
  {
    forall l | 0 <= l < |levels| ensures LevelSaved(levels[l], Edit({}, []), l, levels[l]) {
    }
  }

  lemma {:induction false} FlushLogs(a: Db, b: Db, level: nat, file: File, used: set<(nat, nat)>)
    requires Inv(a) && FlushStep(a, b, level, file) && Past(a.levels, used, a.nextFile) && LevelsSorted(a.levels)
    ensures Fresh(a.levels, b.levels, FlushEdit(a.imm.value, level, file), used, b.nextFile)
  {
    hide Inv, Past, LevelsSorted, Saved, ClearThrough;
    var edit := FlushEdit(a.imm.value, level, file);
    if a.imm.value == {} {
      NothingSaved(a.levels);
    } else {
      OneNumber(level, file, {});
    }
    FreshAdds(a.levels, b.levels, edit, used, a.nextFile, b.nextFile);
  }

  lemma {:induction false} MoveLogs(a: Db, b: Db, level: nat, file: File, used: set<(nat, nat)>)
    requires Inv(a) && MoveStep(a, b, level, file) && Past(a.levels, used, a.nextFile)
    ensures Fresh(a.levels, b.levels, MoveEdit(level, file), used, b.nextFile)
  {
    hide Inv, Past, Saved, UniqueNumbers, LeavesNewer, CoversNextLevel;
    FilesOfInv(a);
    FreshMove(a.levels, b.levels, level, file, used, a.nextFile);
  }

  lemma {:induction false} CompactLogs(a: Db, b: Db, level: nat, in0: seq<File>, in1: seq<File>, outs: seq<File>, used: set<(nat, nat)>)
    requires CompactStep(a, b, level, in0, in1, outs) && Past(a.levels, used, a.nextFile)
    ensures Fresh(a.levels, b.levels, CompactEdit(level, in0, in1, outs), used, b.nextFile)
  {
    hide Past, Saved, LeavesNewer, CoversNextLevel, Harmless, ValidFiles, Ordered, LevelEntries;
    var edit := CompactEdit(level, in0, in1, outs);
    AdditionsAt(level + 1, outs);
    forall p | p in edit.deleted ensures p.0 < NUM_LEVELS {
    }
    forall i | 0 <= i < |edit.added| ensures edit.added[i] == (level + 1, outs[i]) && outs[i].number == a.nextFile + i {
    }
    FreshAdds(a.levels, b.levels, edit, used, a.nextFile, b.nextFile);
  }

  lemma {:induction false} LogsFresh(a: Db, b: Db, edit: Edit, used: set<(nat, nat)>)
    requires Inv(a) && Logs(a, b, edit) && Past(a.levels, used, a.nextFile) && LevelsSorted(a.levels)
    ensures Fresh(a.levels, b.levels, edit, used, b.nextFile)
  {
    hide Inv, Past, LevelsSorted, Fresh, FlushStep, MoveStep, CompactStep;
    if level: nat, file :| FlushStep(a, b, level, file) && edit == FlushEdit(ImmEntries(a), level, file) {
      FlushHasImm(a, b, level, file);
      FlushLogs(a, b, level, file, used);
    } else if level: nat, file :| MoveStep(a, b, level, file) && edit == MoveEdit(level, file) {
      MoveLogs(a, b, level, file, used);
    } else {
      var level: nat, in0, in1, outs :| CompactStep(a, b, level, in0, in1, outs) && edit == CompactEdit(level, in0, in1, outs);
      CompactLogs(a, b, level, in0, in1, outs, used);
    }
  }

  /** A step logs an edit or leaves the files alone. */
  lemma {:induction false} LogsOrStays(a: Db, b: Db) returns (edit: Option<Edit>)
    requires Next(a, b)
    ensures edit.Some? ==> Logs(a, b, edit.value)
    ensures edit.None? ==> b.levels == a.levels && b.nextFile == a.nextFile
  {
    hide FlushStep, MoveStep, CompactStep;
    if level: nat, file :| FlushStep(a, b, level, file) {
      edit := Some(FlushEdit(ImmEntries(a), level, file));
    } else if level: nat, file :| MoveStep(a, b, level, file) {
      edit := Some(MoveEdit(level, file));
    } else if level: nat, in0, in1, outs :| CompactStep(a, b, level, in0, in1, outs) {
      edit := Some(CompactEdit(level, in0, in1, outs));
    } else {
      edit := None;
    }
  }

  lemma {:induction false} FlushHasImm(a: Db, b: Db, level: nat, file: File)
    requires FlushStep(a, b, level, file)
    ensures a.imm.Some? && a.imm.value == ImmEntries(a)
  {
  }

  /** The step from a to b logs edits[m], or nothing. */
  ghost predicate StepLogged(a: Db, b: Db, edits: seq<Edit>, m: nat, n: nat) {
    || (n == m && b.levels == a.levels && b.nextFile == a.nextFile)
    || (n == m + 1 && m < |edits| && Logs(a, b, edits[m]))
  }

  /** edits are what the steps from states[i] to states[j] log, upto[t] of them in the first t steps. */
  ghost predicate Logged(states: seq<Db>, i: nat, j: nat, edits: seq<Edit>, upto: seq<nat>)
    requires i <= j < |states|
  {
    && |upto| == j - i + 1 && upto[0] == 0 && upto[j - i] == |edits|
    && forall t | 0 <= t < j - i :: StepLogged(states[i + t], states[i + t + 1], edits, upto[t], upto[t + 1])
  }

  /** versions[k] is what edits[..k] leave: the files of the store after at[k] steps. */
  ghost predicate Passed(states: seq<Db>, i: nat, j: nat, versions: seq<Levels>, upto: seq<nat>, at: seq<nat>)
    requires i <= j < |states|
  {
    && |upto| == j - i + 1 && |at| == |versions|
    && (forall t | 0 <= t <= j - i :: upto[t] < |versions| && versions[upto[t]] == states[i + t].levels)
    && (forall k | 0 <= k < |at| :: at[k] <= j - i && upto[at[k]] == k)
  }

  /** Every (level, number) of the version at the start and of the edits. */
  ghost function Used(levels: Levels, edits: seq<Edit>): set<(nat, nat)> {
    if edits == [] then NumbersOf(levels)
    else Used(levels, edits[..|edits| - 1]) + EditNumbers(edits[|edits| - 1], |edits[|edits| - 1].added|)
  }

  lemma {:induction false} UsedIncludes(levels: Levels, edits: seq<Edit>, k: nat)
    requires k < |edits|
    ensures EditNumbers(edits[k], |edits[k].added|) <= Used(levels, edits) && NumbersOf(levels) <= Used(levels, edits)
  {
    hide EditNumbers, NumbersOf;
    if k < |edits| - 1 {
      UsedIncludes(levels, edits[..|edits| - 1], k);
    } else if k > 0 {
      UsedIncludes(levels, edits[..|edits| - 1], k - 1);
    }
  }

  /** The edits so far add each (level, number) once, and none of the version at the start. */
  ghost predicate AllNew(levels: Levels, edits: seq<Edit>) {
    AddedOnce(edits) && forall k | 0 <= k < |edits| :: EditNumbers(edits[k], |edits[k].added|) !! NumbersOf(levels)
  }

  lemma {:induction false} OneMoreNew(levels: Levels, edits: seq<Edit>, edit: Edit)
    requires AllNew(levels, edits) && EditOk(edit) && EditNumbers(edit, |edit.added|) !! Used(levels, edits)
    ensures AllNew(levels, edits + [edit]) && Used(levels, edits + [edit]) == Used(levels, edits) + EditNumbers(edit, |edit.added|)
  {
    hide EditNumbers, NumbersOf, EditOk;
    var all := edits + [edit];
    assert all[..|all| - 1] == edits;
    NumbersUsed(levels, edits);
    forall k | 0 <= k < |edits| ensures EditNumbers(edits[k], |edits[k].added|) <= Used(levels, edits) {
      UsedIncludes(levels, edits, k);
    }
  }

  lemma {:induction false} NumbersUsed(levels: Levels, edits: seq<Edit>)
    ensures NumbersOf(levels) <= Used(levels, edits)
  {
    hide EditNumbers, NumbersOf;
    if edits != [] {
      UsedIncludes(levels, edits, 0);
    }
  }

  lemma {:induction false} SavedKeepsSorted(a: Levels, edit: Edit, b: Levels)
    requires Saved(a, edit, b)
    ensures LevelsSorted(b)
  {
    forall l: nat | l < |b| ensures SortedBySmallest(b[l]) {
      assert LevelSaved(a[l], edit, l, b[l]);
    }
  }

  lemma {:induction false} RunSorted(states: seq<Db>, i: nat)
    requires Run(states) && i < |states|
    ensures LevelsSorted(states[i].levels)
  {
    hide Inv, Past, Fresh, Next, LevelsSorted, Logs;
    if i == 0 {
      EmptySorted(states[0]);
    } else {
      RunSorted(states, i - 1);
      RunKeepsInv(states, i - 1);
      var a, b := states[i - 1], states[i];
      var edit := LogsOrStays(a, b);
      if edit.Some? {
        LogsSaved(a, b, edit.value);
        SavedKeepsSorted(a.levels, edit.value, b.levels);
      }
    }
  }

  lemma {:induction false} EmptySorted(db: Db)
    requires Init(db)
    ensures LevelsSorted(db.levels)
  {
  }

  lemma {:induction false} LogsSaved(a: Db, b: Db, edit: Edit)
    requires Inv(a) && Logs(a, b, edit) && LevelsSorted(a.levels)
    ensures Saved(a.levels, edit, b.levels)
  {
    hide Past, Fresh, Logs, Inv;
    AllPast(a);
    LogsFresh(a, b, edit, NumbersOf(a.levels));
    FreshSaved(a.levels, b.levels, edit, NumbersOf(a.levels), b.nextFile);
  }

  lemma {:induction false} FreshSaved(a: Levels, b: Levels, edit: Edit, used: set<(nat, nat)>, nextFile: nat)
    requires Fresh(a, b, edit, used, nextFile)
    ensures EditOk(edit) && EditNumbers(edit, |edit.added|) !! used
    ensures Saved(a, edit, b) && Past(b, used + EditNumbers(edit, |edit.added|), nextFile)
  {
  }

  /** Nothing but the present files need be remembered at the start of a manifest. */
  lemma {:induction false} AllPast(a: Db)
    requires Inv(a)
    ensures Past(a.levels, NumbersOf(a.levels), a.nextFile)
  {
    hide Inv;
    FilesOfInv(a);
  }

  /** The steps of a run log edits. */
  lemma {:induction false} RunLogs(states: seq<Db>, i: nat, j: nat) returns (edits: seq<Edit>, upto: seq<nat>)
    requires Run(states) && i <= j < |states|
    ensures Logged(states, i, j, edits, upto)
    decreases j
  {
    hide Inv, Next, Logs;
    if i == j {
      edits, upto := [], [0];
    } else {
      edits, upto := RunLogs(states, i, j - 1);
      var edit := LogsOrStays(states[j - 1], states[j]);
      ghost var more := edits + if edit.Some? then [edit.value] else [];
      forall t | 0 <= t < j - 1 - i ensures StepLogged(states[i + t], states[i + t + 1], more, upto[t], upto[t + 1]) {
        assert StepLogged(states[i + t], states[i + t + 1], edits, upto[t], upto[t + 1]);
      }
      edits, upto := more, upto + [|more|];
    }
  }

  lemma {:induction false} LoggedPrefix(states: seq<Db>, i: nat, j: nat, edits: seq<Edit>, upto: seq<nat>)
    requires i < j < |states| && Logged(states, i, j, edits, upto)
    ensures var m := upto[j - 1 - i]; m <= |edits| && Logged(states, i, j - 1, edits[..m], upto[..j - i])
  {
    hide Logs;
    var m := upto[j - 1 - i];
    assert StepLogged(states[i + (j - 1 - i)], states[j], edits, m, upto[j - i]);
    forall t | 0 <= t < j - 1 - i
      ensures StepLogged(states[i + t], states[i + t + 1], edits[..m], upto[t], upto[t + 1])
    {
      UptoAscends(states, i, j, edits, upto, t + 1, j - 1 - i);
      assert StepLogged(states[i + t], states[i + t + 1], edits, upto[t], upto[t + 1]);
    }
  }

  lemma {:induction false} UptoAscends(states: seq<Db>, i: nat, j: nat, edits: seq<Edit>, upto: seq<nat>, t: nat, u: nat)
    requires i <= j < |states| && Logged(states, i, j, edits, upto) && t <= u <= j - i
    ensures upto[t] <= upto[u]
    decreases u
  {
    hide Logs;
    if t < u {
      UptoAscends(states, i, j, edits, upto, t, u - 1);
      assert StepLogged(states[i + (u - 1)], states[i + (u - 1) + 1], edits, upto[u - 1], upto[u]);
    }
  }

  /** They add new numbers only, and replaying them passes through the files the store had. */
  lemma {:induction false} LoggedIsNew(states: seq<Db>, i: nat, j: nat, edits: seq<Edit>, upto: seq<nat>)
    returns (versions: seq<Levels>, at: seq<nat>)
    requires Run(states) && i <= j < |states| && Logged(states, i, j, edits, upto)
    ensures Chain(versions, edits) && Passed(states, i, j, versions, upto, at) && AllNew(states[i].levels, edits)
    ensures Past(states[j].levels, Used(states[i].levels, edits), states[j].nextFile)
    decreases j
  {
    hide Inv, Past, Fresh, Next, LevelsSorted, Logs, Used, AllNew, Saved;
    if i == j {
      versions, at := [states[i].levels], [0];
      RunKeepsInv(states, i);
      AllPast(states[i]);
      NothingNew(states[i].levels);
    } else {
      var a, b, m := states[j - 1], states[j], upto[j - 1 - i];
      LoggedPrefix(states, i, j, edits, upto);
      versions, at := LoggedIsNew(states, i, j - 1, edits[..m], upto[..j - i]);
      assert StepLogged(states[i + (j - 1 - i)], states[i + (j - 1 - i) + 1], edits, m, upto[j - i]);
      if upto[j - i] == m {
        assert edits[..m] == edits;
      } else {
        assert edits == edits[..m] + [edits[m]];
        RunKeepsInv(states, j - 1);
        RunSorted(states, j - 1);
        LogsFresh(a, b, edits[m], Used(states[i].levels, edits[..m]));
        FreshSaved(a.levels, b.levels, edits[m], Used(states[i].levels, edits[..m]), b.nextFile);
        OneMoreNew(states[i].levels, edits[..m], edits[m]);
        versions, at := versions + [b.levels], at + [j - i];
      }
    }
  }

  lemma {:induction false} NothingNew(levels: Levels)
    ensures AllNew(levels, []) && Used(levels, []) == NumbersOf(levels)
  {
  }

  /** A manifest that starts with a snapshot of the files at one moment of a run, and holds the edits
      logged from then on, has all that recovery asks for. */
  lemma {:induction false} RunManifest(states: seq<Db>, i: nat, j: nat, edits: seq<Edit>, upto: seq<nat>)
    returns (versions: seq<Levels>, at: seq<nat>)
    requires Run(states) && i <= j < |states| && Logged(states, i, j, edits, upto)
    ensures Passed(states, i, j, versions, upto, at)
    ensures Installed([NO_FILES] + versions, [SnapshotEdit(states[i].levels)] + edits)
    ensures AddedOnce([SnapshotEdit(states[i].levels)] + edits)
  {
    hide Inv, Past, Next, VersionOk, Used, UniqueNumbers, LevelsSorted, Installed, Logged;
    versions, at := LoggedIsNew(states, i, j, edits, upto);
    FirstVersion(states, i, j, edits, versions, upto, at);
    RunKeepsInv(states, i);
    FilesOfInv(states[i]);
    SevenLevels(states[i].levels);
    RunSorted(states, i);
    SnapshotThenEdits(versions, edits);
  }

  lemma {:induction false} FirstVersion(states: seq<Db>, i: nat, j: nat, edits: seq<Edit>, versions: seq<Levels>, upto: seq<nat>, at: seq<nat>)
    requires i <= j < |states| && Logged(states, i, j, edits, upto) && Passed(states, i, j, versions, upto, at)
    ensures |versions| > |edits| && versions[0] == states[i].levels && versions[|edits|] == states[j].levels
  {
    assert versions[upto[0]] == states[i + 0].levels;
    assert versions[upto[j - i]] == states[i + (j - i)].levels;
  }

  /** Recovering it gives the files of the last state, sorted and disjoint. */
  method RecoverRun(snapshot: Edit, edits: seq<Edit>, ghost states: seq<Db>, ghost i: nat, ghost j: nat, ghost upto: seq<nat>) returns (v: Levels)
    requires Run(states) && i <= j < |states| && Logged(states, i, j, edits, upto) && snapshot == SnapshotEdit(states[i].levels)
    ensures v == states[j].levels && VersionOk(v)
  {
    hide Inv, VersionOk, Installed, AddedOnce, Logged, Passed;
    ghost var versions, at := RunManifest(states, i, j, edits, upto);
    FirstVersion(states, i, j, edits, versions, upto, at);
    v := Replay([snapshot] + edits, [NO_FILES] + versions);
    RunKeepsInv(states, j);
    FilesOfInv(states[j]);
  }

  // ---- As bytes ----

  /** A set of pairs as the sorted list a std::set is. */
  lemma {:induction false} SortedListOf(pairs: set<(nat, nat)>) returns (list: seq<VersionEdits.Level>)
    ensures VersionEdits.SortedSet(list) && (set x | x in list :: (x.level, x.number)) == pairs
  {
    if pairs == {} {
      list := [];
    } else {
      var p :| p in pairs;
      var rest := SortedListOf(pairs - {p});
      var x := VersionEdits.Level(p.0, p.1);
      VersionEdits.InsertSorted(rest, x);
      list := VersionEdits.Insert(rest, x);
      assert (set y | y in list :: (y.level, y.number)) == (set y | y in rest :: (y.level, y.number)) + {p};
    }
  }

  /** Every edit that a run logs is one that the manifest can hold. */
  lemma {:induction false} ChangeOf(edit: Edit, logNumber: nat, nextFile: nat, lastSequence: nat) returns (ch: Change)
    ensures EditOf(ch) == edit && Counts(ch) && ch.comparator == None
  {
    var list := SortedListOf(edit.deleted);
    ch := Change(None, Some(logNumber), Some(0), Some(nextFile), Some(lastSequence), [], list, edit.added);
  }

  /** An edit as LogAndApply completes it. */
  predicate Counts(ch: Change) {
    ch.logNumber.Some? && ch.nextFile.Some? && ch.lastSequence.Some?
  }

  lemma {:induction false} CountedLast(cs: seq<Change>)
    requires cs != [] && Counts(cs[|cs| - 1])
    ensures var n, last := AllCounted(cs), cs[|cs| - 1];
      n.logNumber == last.logNumber && n.nextFile == last.nextFile && n.lastSequence == last.lastSequence
  {
  }

  /** changes hold a snapshot of levels and then the edits, as LogAndApply writes them. */
  ghost predicate HoldsEdits(c: KeyCodec, tables: nat -> seq<Entry>, name: Bytes, changes: seq<Change>, levels: Levels, edits: seq<Edit>) {
    && EditsOf(changes) == [SnapshotEdit(levels)] + edits
    && forall n | 0 <= n < |changes| :: Writable(c, tables, changes[n]) && !Foreign(name, changes[n]) && (n > 0 ==> Counts(changes[n]))
  }

  /** r has these files, and the counters of the last edit. */
  ghost predicate RecoversTo(r: Recovery, last: Change, levels: Levels) {
    && r.Recovered? && r.version == levels && VersionOk(levels) && Counts(last)
    && r.manifestNumber == last.nextFile.value && r.lastSequence == last.lastSequence.value && r.logNumber == last.logNumber.value
  }

  lemma {:induction false} OutcomeIs(c: KeyCodec, tables: nat -> seq<Entry>, name: Bytes, changes: seq<Change>, levels: Levels, edits: seq<Edit>,
                                     k: nat, version: Levels)
    requires HoldsEdits(c, tables, name, changes, levels, edits) && 1 < k <= |changes| && VersionOk(version)
    ensures RecoversTo(Manifests.Outcome(name, changes[..k], version), changes[k - 1], version)
  {
    hide Writable, SnapshotEdit, Foreign, Counted, AllPointed, VersionOk, AllCounted;
    var cs := changes[..k];
    assert cs[k - 1] == changes[k - 1];
    forall n | 0 <= n < k ensures !Foreign(name, cs[n]) {
      assert cs[n] == changes[n];
    }
    CountedLast(cs);
  }

  lemma {:induction false} HeldManifest(c: KeyCodec, tables: nat -> seq<Entry>, name: Bytes, changes: seq<Change>, levels: Levels, edits: seq<Edit>,
                                        versions: seq<Levels>)
    requires HoldsEdits(c, tables, name, changes, levels, edits)
    requires Installed(versions, [SnapshotEdit(levels)] + edits) && AddedOnce([SnapshotEdit(levels)] + edits)
    ensures IsManifest(c, tables, changes, versions)
  {
    hide Writable, SnapshotEdit, Foreign, Installed, AddedOnce;
  }

  /** The version after k edits of the manifest, as a state of the run. */
  lemma {:induction false} StateAfter(states: seq<Db>, i: nat, j: nat, edits: seq<Edit>, versions: seq<Levels>, upto: seq<nat>, at: seq<nat>, k: nat)
    returns (t: nat)
    requires Run(states) && i <= j < |states| && Logged(states, i, j, edits, upto) && Passed(states, i, j, versions, upto, at)
    requires 0 < k <= |edits| + 1
    ensures i + t <= j && upto[t] == k - 1 && k <= |versions|
    ensures ([NO_FILES] + versions)[k] == states[i + t].levels && VersionOk(states[i + t].levels)
    ensures k == |edits| + 1 ==> states[i + t].levels == states[j].levels
  {
    hide Inv, VersionOk, Run, Logged;
    FirstVersion(states, i, j, edits, versions, upto, at);
    t := at[k - 1];
    assert upto[t] == k - 1 && versions[upto[t]] == states[i + t].levels;
    RunKeepsInv(states, i + t);
    FilesOfInv(states[i + t]);
  }

  /** Of the manifest of a run, begun with a snapshot at states[i], any byte prefix that holds a completed
      edit recovers files that the store had at some moment since, with that edit's counters, and the
      whole manifest recovers the files of states[j]. */
  method RecoverRunFile(c: KeyCodec, tables: nat -> seq<Entry>, sum: Sum, name: Bytes, file: Bytes, ghost changes: seq<Change>,
                        ghost states: seq<Db>, ghost i: nat, ghost j: nat, ghost edits: seq<Edit>, ghost upto: seq<nat>)
    returns (r: Recovery, ghost t: nat)
    requires Run(states) && i <= j < |states| && Logged(states, i, j, edits, upto)
    requires HoldsEdits(c, tables, name, changes, states[i].levels, edits)
    requires file <= Log(c, sum, changes)
    ensures var k := Whole(c, sum, changes, |file|);
      k <= |changes| && (k > 1 ==> i + t <= j && upto[t] == k - 1 && RecoversTo(r, changes[k - 1], states[i + t].levels))
    ensures file == Log(c, sum, changes) && edits != [] ==>
      RecoversTo(r, changes[|edits|], states[j].levels)
  {
    hide Inv, Run, Logged, Passed, Installed, AddedOnce, Log, Whole, SnapshotEdit, HoldsEdits, RecoversTo, IsManifest, Manifests.Outcome;
    ghost var versions, at := RunManifest(states, i, j, edits, upto);
    HeldManifest(c, tables, name, changes, states[i].levels, edits, [NO_FILES] + versions);
    r := Manifests.Recover(c, tables, sum, name, file, changes, [NO_FILES] + versions);
    ghost var k := Whole(c, sum, changes, |file|);
    HeldLength(c, tables, name, changes, states[i].levels, edits);
    AllWhole(c, sum, changes);
    t := 0;
    if k > 1 {
      t := ResultRight(c, tables, name, changes, states, i, j, edits, versions, upto, at, k, r);
    }
  }

  lemma {:induction false} ResultRight(c: KeyCodec, tables: nat -> seq<Entry>, name: Bytes, changes: seq<Change>, states: seq<Db>, i: nat, j: nat,
                                       edits: seq<Edit>, versions: seq<Levels>, upto: seq<nat>, at: seq<nat>, k: nat, r: Recovery)
    returns (t: nat)
    requires Run(states) && i <= j < |states| && Logged(states, i, j, edits, upto) && Passed(states, i, j, versions, upto, at)
    requires HoldsEdits(c, tables, name, changes, states[i].levels, edits) && 1 < k <= |changes| == |edits| + 1 && k <= |versions|
    requires r == Manifests.Outcome(name, changes[..k], ([NO_FILES] + versions)[k])
    ensures i + t <= j && upto[t] == k - 1 && RecoversTo(r, changes[k - 1], states[i + t].levels)
    ensures k == |changes| ==> RecoversTo(r, changes[k - 1], states[j].levels)
  {
    hide Inv, Run, Logged, HoldsEdits, RecoversTo, VersionOk, Manifests.Outcome;
    t := StateAfter(states, i, j, edits, versions, upto, at, k);
    OutcomeIs(c, tables, name, changes, states[i].levels, edits, k, states[i + t].levels);
  }

  lemma {:induction false} HeldLength(c: KeyCodec, tables: nat -> seq<Entry>, name: Bytes, changes: seq<Change>, levels: Levels, edits: seq<Edit>)
    requires HoldsEdits(c, tables, name, changes, levels, edits)
    ensures |changes| == |edits| + 1
  {
  }
}
