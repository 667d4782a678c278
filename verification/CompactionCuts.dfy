/**
 * Where a compaction ends one output file and begins the next (db/version_set.cc: Compaction::ShouldStopBefore;
 * db/db_impl.cc: DoCompactionWork).
 */
module CompactionCuts {
  import opened Basics
  import opened InternalKeys
  import opened Versions
  import opened Inputs

  /** The bytes of the files that end at or after a and before b. */
  function PassedBytes(gs: seq<File>, a: IKey, b: IKey): nat {
    if gs == [] then 0
    else
      var g := gs[|gs| - 1];
      PassedBytes(gs[..|gs| - 1], a, b) + if !Before(g.largest, a) && Before(g.largest, b) then g.size else 0
  }

  lemma {:induction false} PassedMore(gs: seq<File>, i: nat, a: IKey, b: IKey)
    requires i < |gs|
    ensures PassedBytes(gs[..i + 1], a, b)
         == PassedBytes(gs[..i], a, b) + if !Before(gs[i].largest, a) && Before(gs[i].largest, b) then gs[i].size else 0
  {
    assert gs[..i + 1][..i] == gs[..i];
  }

  /** Files that end before both x and y do not tell them apart. */
  lemma {:induction false} PassedSame(gs: seq<File>, a: IKey, x: IKey, y: IKey)
    requires forall j | 0 <= j < |gs| :: Before(gs[j].largest, x) && Before(gs[j].largest, y)
    ensures PassedBytes(gs, a, x) == PassedBytes(gs, a, y)
  {
    if gs != [] {
      PassedSame(gs[..|gs| - 1], a, x, y);
    }
  }

  /** Files that end at or after b are not passed. */
  lemma {:induction false} PassedPrefix(gs: seq<File>, i: nat, a: IKey, b: IKey)
    requires i <= |gs| && forall j | i <= j < |gs| :: !Before(gs[j].largest, b)
    ensures PassedBytes(gs, a, b) == PassedBytes(gs[..i], a, b)
    decreases |gs|
  {
    if i == |gs| {
      assert gs[..i] == gs;
    } else {
      assert gs[..|gs| - 1][..i] == gs[..i];
      PassedPrefix(gs[..|gs| - 1], i, a, b);
    }
  }

  lemma {:induction false} PassedNothing(gs: seq<File>, a: IKey)
    ensures PassedBytes(gs, a, a) == 0
  {
    if gs != [] {
      PassedNothing(gs[..|gs| - 1], a);
    }
  }

  /** The later the start, the fewer files are passed. */
  lemma {:induction false} PassedFewer(gs: seq<File>, a: IKey, a1: IKey, b: IKey)
    requires !Before(a1, a)
    ensures PassedBytes(gs, a1, b) <= PassedBytes(gs, a, b)
  {
    if gs != [] {
      PassedFewer(gs[..|gs| - 1], a, a1, b);
    }
  }

  /** The files that a range of user keys does not meet are not passed in it. */
  lemma {:induction false} PassedOverlapping(gs: seq<File>, lo: UserKey, hi: UserKey, a: IKey, b: IKey)
    requires Spans(gs) && lo <= a.user && b.user <= hi
    ensures PassedBytes(Overlapping(gs, Some(lo), Some(hi)), a, b) == PassedBytes(gs, a, b)
  {
    if gs == [] {
      assert Overlapping(gs, Some(lo), Some(hi)) == [];
    } else {
      var n := |gs| - 1;
      assert forall i | 0 <= i < n :: gs[..n][i] == gs[i];
      PassedOverlapping(gs[..n], lo, hi, a, b);
      OverlappingAppend(gs, n, Some(lo), Some(hi));
      assert gs[..n + 1] == gs;
      AppendedPassed(Overlapping(gs[..n], Some(lo), Some(hi)), gs[n], a, b);
      if !Before(gs[n].largest, a) && Before(gs[n].largest, b) {
        ApartNotPassed(gs[n], lo, hi, a, b);
      }
    }
  }

  lemma {:induction false} AppendedPassed(gs: seq<File>, g: File, a: IKey, b: IKey)
    ensures PassedBytes(gs + [g], a, b) == PassedBytes(gs, a, b) + if !Before(g.largest, a) && Before(g.largest, b) then g.size else 0
    ensures PassedBytes(gs + [], a, b) == PassedBytes(gs, a, b)
  {
    assert (gs + [g])[..|gs|] == gs && gs + [] == gs;
  }

  lemma {:induction false} ApartNotPassed(g: File, lo: UserKey, hi: UserKey, a: IKey, b: IKey)
    requires !Before(g.largest, g.smallest) && lo <= a.user && b.user <= hi && !Before(g.largest, a) && Before(g.largest, b)
    ensures Overlaps(g, Some(lo), Some(hi))
  {
  }

  // ---- The output files ----

  /** An output file was not full before its last entry, and passes no more than limit bytes of the grandparents. */
  ghost predicate WellCut(gs: seq<File>, limit: nat, full: seq<Entry> -> bool, o: seq<Entry>) {
    && o != [] && (forall k | 0 < k < |o| :: !full(o[..k]))
    && PassedBytes(gs, o[0].Key(), o[|o| - 1].Key()) <= limit
  }

  /** m lies behind every output file that was ended before it was full. */
  ghost predicate SinceStops(full: seq<Entry> -> bool, outputs: seq<seq<Entry>>, m: IKey) {
    forall i | 0 <= i < |outputs| && !full(outputs[i]) :: outputs[i] != [] && Before(outputs[i][|outputs[i]| - 1].Key(), m)
  }

  /** The last of these output files was ended before it was full, because more than limit bytes of the grandparents
      had been passed since the last time that happened; at is a key behind it. */
  ghost predicate StoppedBefore(gs: seq<File>, limit: nat, full: seq<Entry> -> bool, outputs: seq<seq<Entry>>, at: IKey)
    requires outputs != []
  {
    var init, last := outputs[..|outputs| - 1], outputs[|outputs| - 1];
    last != [] && exists m, k :: PassedBytes(gs, m, k) > limit && SinceStops(full, init, m)
                                 && Before(last[|last| - 1].Key(), k) && !Before(at, k)
  }

  /** Each output file is well cut, and ends where it is full or the grandparents ask for it. */
  ghost predicate Cut(gs: seq<File>, limit: nat, full: seq<Entry> -> bool, outputs: seq<seq<Entry>>) {
    && (forall j | 0 <= j < |outputs| :: WellCut(gs, limit, full, outputs[j]))
    && forall j | 0 < j < |outputs| && !full(outputs[j - 1]) :: StoppedBefore(gs, limit, full, outputs[..j], outputs[j][0].Key())
  }

  /** In the middle of the loop: mark is the last stop, now the last key. */
  ghost predicate Cutting(gs: seq<File>, limit: nat, full: seq<Entry> -> bool, outputs: seq<seq<Entry>>, builder: seq<Entry>,
                          mark: IKey, now: IKey) {
    && Cut(gs, limit, full, outputs) && SinceStops(full, outputs, mark)
    && (builder != [] ==>
          WellCut(gs, limit, full, builder) && !full(builder)
          && !Before(builder[0].Key(), mark) && !Before(now, builder[|builder| - 1].Key()))
    && (outputs != [] && !full(outputs[|outputs| - 1]) ==>
          StoppedBefore(gs, limit, full, outputs, if builder != [] then builder[0].Key() else now))
  }

  lemma {:induction false} CutMore(gs: seq<File>, limit: nat, full: seq<Entry> -> bool, outputs: seq<seq<Entry>>, o: seq<Entry>)
    requires Cut(gs, limit, full, outputs) && WellCut(gs, limit, full, o)
    requires outputs != [] && !full(outputs[|outputs| - 1]) ==> StoppedBefore(gs, limit, full, outputs, o[0].Key())
    ensures Cut(gs, limit, full, outputs + [o])
  {
    hide WellCut, StoppedBefore;
    var all := outputs + [o];
    forall j | 0 < j < |all| && !full(all[j - 1])
      ensures all[j] != [] && StoppedBefore(gs, limit, full, all[..j], all[j][0].Key())
    {
      NotEmpty(gs, limit, full, all[j]);
      assert all[..j] == outputs[..j] && all[j - 1] == outputs[j - 1];
      assert outputs[..|outputs|] == outputs;
    }
  }

  lemma {:induction false} NotEmpty(gs: seq<File>, limit: nat, full: seq<Entry> -> bool, o: seq<Entry>)
    requires WellCut(gs, limit, full, o)
    ensures o != []
  {
  }

  lemma {:induction false} StopsOn(gs: seq<File>, limit: nat, full: seq<Entry> -> bool, outputs: seq<seq<Entry>>, at: IKey, k: IKey)
    requires outputs != [] && StoppedBefore(gs, limit, full, outputs, at) && !Before(k, at)
    ensures StoppedBefore(gs, limit, full, outputs, k)
  {
    hide PassedBytes, SinceStops;
  }

  lemma {:induction false} SinceStopsOn(full: seq<Entry> -> bool, outputs: seq<seq<Entry>>, m: IKey, k: IKey)
    requires SinceStops(full, outputs, m) && !Before(k, m)
    ensures SinceStops(full, outputs, k)
  {
  }

  /** The next key is no reason to stop. */
  lemma {:induction false} GoesOn(gs: seq<File>, limit: nat, full: seq<Entry> -> bool, outputs: seq<seq<Entry>>, builder: seq<Entry>,
                                  mark: IKey, now: IKey, k: IKey)
    requires Cutting(gs, limit, full, outputs, builder, mark, now) && Before(now, k)
    ensures Cutting(gs, limit, full, outputs, builder, mark, k)
  {
    hide PassedBytes, SinceStops, StoppedBefore, Cut, WellCut;
    if outputs != [] && !full(outputs[|outputs| - 1]) && builder == [] {
      StopsOn(gs, limit, full, outputs, now, k);
    }
  }

  /** The grandparents ask for an end, and there is nothing to end. */
  lemma {:induction false} StopsEmpty(gs: seq<File>, limit: nat, full: seq<Entry> -> bool, outputs: seq<seq<Entry>>, mark: IKey, now: IKey, k: IKey)
    requires Cutting(gs, limit, full, outputs, [], mark, now) && Before(now, k) && !Before(now, mark)
    ensures Cutting(gs, limit, full, outputs, [], k, k)
  {
    hide PassedBytes, SinceStops, StoppedBefore, Cut, WellCut;
    SinceStopsOn(full, outputs, mark, k);
    if outputs != [] && !full(outputs[|outputs| - 1]) {
      StopsOn(gs, limit, full, outputs, now, k);
    }
  }

  /** The grandparents ask for an end, and the file is ended. */
  lemma {:induction false} StopsHere(gs: seq<File>, limit: nat, full: seq<Entry> -> bool, outputs: seq<seq<Entry>>, builder: seq<Entry>,
                                     mark: IKey, now: IKey, k: IKey)
    requires Cutting(gs, limit, full, outputs, builder, mark, now) && builder != [] && Before(now, k) && !Before(now, mark)
    requires PassedBytes(gs, mark, k) > limit
    ensures Cutting(gs, limit, full, outputs + [builder], [], k, k)
  {
    hide PassedBytes, StoppedBefore, Cut, WellCut;
    CutMore(gs, limit, full, outputs, builder);
    StoppedNow(gs, limit, full, outputs, builder, mark, k);
  }

  lemma {:induction false} StoppedNow(gs: seq<File>, limit: nat, full: seq<Entry> -> bool, outputs: seq<seq<Entry>>, builder: seq<Entry>,
                                      mark: IKey, k: IKey)
    requires builder != [] && SinceStops(full, outputs, mark) && Before(builder[|builder| - 1].Key(), k) && PassedBytes(gs, mark, k) > limit
    ensures StoppedBefore(gs, limit, full, outputs + [builder], k)
  {
    hide PassedBytes, SinceStops;
    assert (outputs + [builder])[..|outputs|] == outputs;
  }

  /** One more entry, with the last key. */
  lemma {:induction false} EntryAdded(gs: seq<File>, limit: nat, full: seq<Entry> -> bool, outputs: seq<seq<Entry>>, builder: seq<Entry>,
                                      mark: IKey, e: Entry)
    requires Cutting(gs, limit, full, outputs, builder, mark, e.Key()) && PassedBytes(gs, mark, e.Key()) <= limit && !Before(e.Key(), mark)
    ensures !full(builder + [e]) ==> Cutting(gs, limit, full, outputs, builder + [e], mark, e.Key())
    ensures full(builder + [e]) ==> Cutting(gs, limit, full, outputs + [builder + [e]], [], mark, e.Key())
  {
    hide PassedBytes, StoppedBefore, Cut;
    var more := builder + [e];
    forall k | 0 < k < |more|
      ensures !full(more[..k])
    {
      assert more[..k] == builder[..k];
      assert builder[..|builder|] == builder;
    }
    PassedFewer(gs, mark, more[0].Key(), e.Key());
    if full(more) {
      CutMore(gs, limit, full, outputs, more);
    }
  }

  lemma {:induction false} LastCut(gs: seq<File>, limit: nat, full: seq<Entry> -> bool, outputs: seq<seq<Entry>>, builder: seq<Entry>,
                                   mark: IKey, now: IKey)
    requires Cutting(gs, limit, full, outputs, builder, mark, now)
    ensures Cut(gs, limit, full, if builder == [] then outputs else outputs + [builder])
  {
    hide PassedBytes, StoppedBefore, Cut, WellCut, SinceStops;
    if builder != [] {
      CutMore(gs, limit, full, outputs, builder);
    }
  }

  lemma {:induction false} NothingCut(gs: seq<File>, limit: nat, full: seq<Entry> -> bool)
    ensures Cut(gs, limit, full, []) && forall k :: Cutting(gs, limit, full, [], [], k, k)
  {
    hide PassedBytes;
  }
}
