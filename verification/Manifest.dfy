/** The manifest: edits as records of a log, and the version set that writes and recovers it (db/version_set.cc). */
module Manifests {
  import opened Basics
  import opened InternalKeys
  import opened Versions
  import opened Edits
  import opened Builders
  import opened LogFormat
  import opened LogWriting
  import opened LogReading
  import VersionEdits

  /** InternalKey::Encode and DecodeFrom. */
  datatype KeyCodec = KeyCodec(encode: IKey -> Bytes, decode: Bytes -> IKey)

  /** A key that is in use survives its encoding. */
  predicate Keeps(c: KeyCodec, k: IKey) {
    |c.encode(k)| < TWO32 && c.decode(c.encode(k)) == k
  }

  /** A VersionEdit; deleted is a std::set as its sorted list. */
  datatype Change = Change(
    comparator: Option<Bytes>, logNumber: Option<nat>, prevLogNumber: Option<nat>, nextFile: Option<nat>, lastSequence: Option<nat>,
    pointers: seq<(nat, IKey)>, deleted: seq<VersionEdits.Level>, added: seq<(nat, File)>)

  function EditOf(ch: Change): Edit {
    Edit(set x | x in ch.deleted :: (x.level, x.number), ch.added)
  }

  function Meta(c: KeyCodec, f: File): VersionEdits.FileMeta {
    VersionEdits.FileMeta(f.number, f.size, c.encode(f.smallest), c.encode(f.largest))
  }

  function ToFields(c: KeyCodec, ch: Change): VersionEdits.Fields {
    VersionEdits.Fields(ch.comparator, ch.logNumber, ch.prevLogNumber, ch.nextFile, ch.lastSequence,
      seq(|ch.pointers|, i requires 0 <= i < |ch.pointers| => (ch.pointers[i].0, c.encode(ch.pointers[i].1))),
      ch.deleted,
      seq(|ch.added|, i requires 0 <= i < |ch.added| => (ch.added[i].0, Meta(c, ch.added[i].1))))
  }

  /** The file that a decoded entry names; its contents are those of the table file with that number. */
  function FileOf(c: KeyCodec, tables: nat -> seq<Entry>, m: VersionEdits.FileMeta): File {
    File(m.number, m.fileSize, c.decode(m.smallest), c.decode(m.largest), tables(m.number))
  }

  function FromFields(c: KeyCodec, tables: nat -> seq<Entry>, e: VersionEdits.Fields): Change {
    Change(e.comparator, e.logNumber, e.prevLogNumber, e.nextFileNumber, e.lastSequence,
      seq(|e.compactPointers|, i requires 0 <= i < |e.compactPointers| => (e.compactPointers[i].0, c.decode(e.compactPointers[i].1))),
      e.deletedFiles,
      seq(|e.newFiles|, i requires 0 <= i < |e.newFiles| => (e.newFiles[i].0, FileOf(c, tables, e.newFiles[i].1))))
  }

  predicate Fits(n: Option<nat>) {
    n.Some? ==> n.value < TWO64
  }

  predicate FileFits(c: KeyCodec, tables: nat -> seq<Entry>, f: File) {
    && f.number < TWO64 && f.size < TWO64 && Keeps(c, f.smallest) && Keeps(c, f.largest)
    && tables(f.number) == f.entries
  }

  predicate HeaderFits(ch: Change) {
    && (ch.comparator.Some? ==> |ch.comparator.value| < TWO32)
    && Fits(ch.logNumber) && Fits(ch.prevLogNumber) && Fits(ch.nextFile) && Fits(ch.lastSequence)
  }

  predicate PointersFit(c: KeyCodec, ps: seq<(nat, IKey)>) {
    forall i | 0 <= i < |ps| :: ps[i].0 < NUM_LEVELS && Keeps(c, ps[i].1)
  }

  predicate DeletionsFit(ds: seq<VersionEdits.Level>) {
    VersionEdits.SortedSet(ds) && forall i | 0 <= i < |ds| :: ds[i].level < NUM_LEVELS && ds[i].number < TWO64
  }

  predicate AdditionsFit(c: KeyCodec, tables: nat -> seq<Entry>, fs: seq<(nat, File)>) {
    forall i | 0 <= i < |fs| :: fs[i].0 < NUM_LEVELS && FileFits(c, tables, fs[i].1)
  }

  /** Numbers of their width, keys that survive, and files that are on disk. */
  predicate Writable(c: KeyCodec, tables: nat -> seq<Entry>, ch: Change) {
    HeaderFits(ch) && PointersFit(c, ch.pointers) && DeletionsFit(ch.deleted) && AdditionsFit(c, tables, ch.added)
  }

  lemma {:induction false} ChangeRoundTrip(c: KeyCodec, tables: nat -> seq<Entry>, ch: Change)
    requires Writable(c, tables, ch)
    ensures FromFields(c, tables, ToFields(c, ch)) == ch
  {
    var back := FromFields(c, tables, ToFields(c, ch));
    assert back.pointers == ch.pointers by {
      forall i | 0 <= i < |ch.pointers| ensures back.pointers[i] == ch.pointers[i] {
        assert Keeps(c, ch.pointers[i].1);
      }
    }
    assert back.added == ch.added by {
      forall i | 0 <= i < |ch.added| ensures back.added[i] == ch.added[i] {
        assert FileFits(c, tables, ch.added[i].1);
      }
    }
  }

  lemma {:induction false} HeaderWf(c: KeyCodec, ch: Change)
    requires HeaderFits(ch)
    ensures VersionEdits.WfRecords(VersionEdits.Header(ToFields(c, ch)))
  {
  }

  lemma {:induction false} AppendWf(a: seq<VersionEdits.Record>, b: seq<VersionEdits.Record>)
    requires VersionEdits.WfRecords(a) && VersionEdits.WfRecords(b)
    ensures VersionEdits.WfRecords(a + b)
  {
  }

  lemma {:induction false} FieldsWf(c: KeyCodec, tables: nat -> seq<Entry>, ch: Change)
    requires Writable(c, tables, ch)
    ensures VersionEdits.WfEdit(ToFields(c, ch))
  {
    var e := ToFields(c, ch);
    HeaderWf(c, ch);
    assert VersionEdits.WfRecords(VersionEdits.Pointers(e.compactPointers));
    assert VersionEdits.WfRecords(VersionEdits.Deletions(e.deletedFiles));
    assert VersionEdits.WfRecords(VersionEdits.Additions(e.newFiles));
    hide VersionEdits.WfRecords;
    AppendWf(VersionEdits.Header(e), VersionEdits.Pointers(e.compactPointers));
    AppendWf(VersionEdits.Header(e) + VersionEdits.Pointers(e.compactPointers), VersionEdits.Deletions(e.deletedFiles));
    AppendWf(VersionEdits.Header(e) + VersionEdits.Pointers(e.compactPointers) + VersionEdits.Deletions(e.deletedFiles),
             VersionEdits.Additions(e.newFiles));
  }

  /** The manifest record of an edit. */
  function Encoded(c: KeyCodec, ch: Change): Bytes {
    VersionEdits.PutRecords(VersionEdits.Records(ToFields(c, ch)))
  }

  method EncodeChange(c: KeyCodec, ch: Change) returns (record: Bytes)
    ensures record == Encoded(c, ch)
  {
    var e := new VersionEdits.VersionEdit();
    e.fields := ToFields(c, ch);
    record := e.EncodeTo();
  }

  method DecodeChange(c: KeyCodec, tables: nat -> seq<Entry>, record: Bytes, ghost ch: Change) returns (r: Option<Change>)
    ensures Writable(c, tables, ch) && record == Encoded(c, ch) ==> r == Some(ch)
  {
    hide VersionEdits.Decoded, VersionEdits.PutRecords, VersionEdits.Records, Writable, ToFields, FromFields, VersionEdits.WfEdit;
    if Writable(c, tables, ch) && record == Encoded(c, ch) {
      FieldsWf(c, tables, ch);
      VersionEdits.EditRoundTrip(ToFields(c, ch));
      ChangeRoundTrip(c, tables, ch);
    }
    var e := new VersionEdits.VersionEdit();
    var ok := e.DecodeFrom(record);
    r := if ok then Some(FromFields(c, tables, e.fields)) else None;
  }

  // ---- What a list of edits adds up to ----

  datatype Counters = Counters(logNumber: Option<nat>, prevLogNumber: Option<nat>, nextFile: Option<nat>, lastSequence: Option<nat>)

  function Later(a: Option<nat>, b: Option<nat>): Option<nat> {
    if b.Some? then b else a
  }

  function Counted(n: Counters, ch: Change): Counters {
    Counters(Later(n.logNumber, ch.logNumber), Later(n.prevLogNumber, ch.prevLogNumber),
             Later(n.nextFile, ch.nextFile), Later(n.lastSequence, ch.lastSequence))
  }

  function AllCounted(cs: seq<Change>): Counters {
    if cs == [] then Counters(None, None, None, None) else Counted(AllCounted(cs[..|cs| - 1]), cs[|cs| - 1])
  }

  type Pointers = ps: seq<Option<IKey>> | |ps| == NUM_LEVELS witness [None, None, None, None, None, None, None]

  const NO_POINTERS: Pointers := [None, None, None, None, None, None, None]

  function Pointed(ps: Pointers, more: seq<(nat, IKey)>): Pointers {
    if more == [] then ps
    else
      var before, last := Pointed(ps, more[..|more| - 1]), more[|more| - 1];
      if last.0 < NUM_LEVELS then before[last.0 := Some(last.1)] else before
  }

  function AllPointed(cs: seq<Change>): Pointers {
    if cs == [] then NO_POINTERS else Pointed(AllPointed(cs[..|cs| - 1]), cs[|cs| - 1].pointers)
  }

  function EditsOf(cs: seq<Change>): (es: seq<Edit>)
    ensures |es| == |cs| && forall i | 0 <= i < |cs| :: es[i] == EditOf(cs[i])
  {
    seq(|cs|, i requires 0 <= i < |cs| => EditOf(cs[i]))
  }

  function RecordsOf(c: KeyCodec, cs: seq<Change>): (rs: seq<Bytes>)
    ensures |rs| == |cs| && forall i | 0 <= i < |cs| :: rs[i] == Encoded(c, cs[i])
  {
    seq(|cs|, i requires 0 <= i < |cs| => Encoded(c, cs[i]))
  }

  /** changes are the edits of a manifest, and states the versions they installed. */
  ghost predicate IsManifest(c: KeyCodec, tables: nat -> seq<Entry>, changes: seq<Change>, states: seq<Levels>) {
    && AddedOnce(EditsOf(changes)) && Installed(states, EditsOf(changes))
    && forall i | 0 <= i < |changes| :: Writable(c, tables, changes[i])
  }

  // ---- Recovery ----

  datatype Recovery =
    | Recovered(version: Levels, pointers: Pointers, manifestNumber: nat, nextFile: nat, lastSequence: nat, logNumber: nat, prevLogNumber: nat)
    | WrongComparator | NoNextFile | NoLogNumber | NoLastSequence

  predicate Foreign(name: Bytes, ch: Change) {
    ch.comparator.Some? && ch.comparator.value != name
  }

  /** What recovery makes of the edits it reads, and the version they add up to. */
  function Outcome(name: Bytes, cs: seq<Change>, version: Levels): Recovery {
    var n := AllCounted(cs);
    if exists i | 0 <= i < |cs| :: Foreign(name, cs[i]) then WrongComparator
    else Concluded(n, version, AllPointed(cs))
  }

  function Concluded(n: Counters, version: Levels, pointers: Pointers): Recovery {
    if n.nextFile.None? then NoNextFile
    else if n.logNumber.None? then NoLogNumber
    else if n.lastSequence.None? then NoLastSequence
    else Recovered(version, pointers, n.nextFile.value, n.nextFile.value + 1, n.lastSequence.value, n.logNumber.value,
                   if n.prevLogNumber.Some? then n.prevLogNumber.value else 0)
  }

  /** r is the last of os that is set, or None if none is. */
  ghost predicate LastSet<T>(os: seq<Option<T>>, r: Option<T>) {
    if r.None? then forall i | 0 <= i < |os| :: os[i].None?
    else exists i :: 0 <= i < |os| && os[i] == r && forall j | i < j < |os| :: os[j].None?
  }

  lemma {:induction false} LastSetMore<T>(os: seq<Option<T>>, r: Option<T>, o: Option<T>)
    requires LastSet(os, r)
    ensures LastSet(os + [o], if o.Some? then o else r)
  {
    var more := os + [o];
    if o.Some? {
      assert more[|os|] == o;
    } else if r.Some? {
      var i :| 0 <= i < |os| && os[i] == r && forall j | i < j < |os| :: os[j].None?;
      assert more[i] == r;
    }
  }

  function LogNumbers(cs: seq<Change>): seq<Option<nat>> {
    seq(|cs|, i requires 0 <= i < |cs| => cs[i].logNumber)
  }

  function PrevLogNumbers(cs: seq<Change>): seq<Option<nat>> {
    seq(|cs|, i requires 0 <= i < |cs| => cs[i].prevLogNumber)
  }

  function NextFiles(cs: seq<Change>): seq<Option<nat>> {
    seq(|cs|, i requires 0 <= i < |cs| => cs[i].nextFile)
  }

  function LastSequences(cs: seq<Change>): seq<Option<nat>> {
    seq(|cs|, i requires 0 <= i < |cs| => cs[i].lastSequence)
  }

  /** Each counter is what the last edit that mentions it says. */
  lemma {:induction false} CountersAreLast(cs: seq<Change>)
    ensures var n := AllCounted(cs);
      && LastSet(LogNumbers(cs), n.logNumber) && LastSet(PrevLogNumbers(cs), n.prevLogNumber)
      && LastSet(NextFiles(cs), n.nextFile) && LastSet(LastSequences(cs), n.lastSequence)
  {
    if cs != [] {
      var init, last := cs[..|cs| - 1], cs[|cs| - 1];
      CountersAreLast(init);
      var n := AllCounted(init);
      assert LogNumbers(cs) == LogNumbers(init) + [last.logNumber];
      assert PrevLogNumbers(cs) == PrevLogNumbers(init) + [last.prevLogNumber];
      assert NextFiles(cs) == NextFiles(init) + [last.nextFile];
      assert LastSequences(cs) == LastSequences(init) + [last.lastSequence];
      hide LastSet, LogNumbers, PrevLogNumbers, NextFiles, LastSequences;
      LastSetMore(LogNumbers(init), n.logNumber, last.logNumber);
      LastSetMore(PrevLogNumbers(init), n.prevLogNumber, last.prevLogNumber);
      LastSetMore(NextFiles(init), n.nextFile, last.nextFile);
      LastSetMore(LastSequences(init), n.lastSequence, last.lastSequence);
    }
  }

  /** What the pointers of one edit say of a level. */
  ghost predicate LastPointer(ps: seq<(nat, IKey)>, level: nat, r: Option<IKey>) {
    if r.None? then forall i | 0 <= i < |ps| :: ps[i].0 != level
    else exists i :: 0 <= i < |ps| && ps[i] == (level, r.value) && forall j | i < j < |ps| :: ps[j].0 != level
  }

  lemma {:induction false} LastPointerMore(ps: seq<(nat, IKey)>, level: nat, r: Option<IKey>, last: (nat, IKey))
    requires LastPointer(ps, level, r)
    ensures LastPointer(ps + [last], level, if last.0 == level then Some(last.1) else r)
  {
    var more := ps + [last];
    if last.0 == level {
      assert more[|ps|] == (level, last.1);
    } else if r.Some? {
      var i :| 0 <= i < |ps| && ps[i] == (level, r.value) && forall j | i < j < |ps| :: ps[j].0 != level;
      assert more[i] == (level, r.value);
    }
  }

  /** Pointers are set one after another; a level that none of them names keeps its own. */
  lemma {:induction false} PointedIsLast(ps: Pointers, more: seq<(nat, IKey)>, level: nat) returns (r: Option<IKey>)
    requires level < NUM_LEVELS
    ensures LastPointer(more, level, r) && Pointed(ps, more)[level] == if r.Some? then r else ps[level]
  {
    if more == [] {
      r := None;
    } else {
      hide LastPointer;
      var init, last := more[..|more| - 1], more[|more| - 1];
      r := PointedIsLast(ps, init, level);
      LastPointerMore(init, level, r, last);
      assert init + [last] == more;
      r := if last.0 == level then Some(last.1) else r;
    }
  }

  /** What recovery reports: an error for a foreign comparator or a counter that no edit sets, and otherwise the last
      value of each counter; the manifest takes the next file number, and the one after it is next. */
  lemma {:induction false} OutcomeMeans(name: Bytes, cs: seq<Change>, version: Levels)
    ensures var r, n := Outcome(name, cs, version), AllCounted(cs);
      && (r.WrongComparator? <==> exists i :: 0 <= i < |cs| && cs[i].comparator.Some? && cs[i].comparator.value != name)
      && (!r.WrongComparator? ==>
            && (r.NoNextFile? <==> n.nextFile.None?)
            && (r.NoLogNumber? <==> n.nextFile.Some? && n.logNumber.None?)
            && (r.NoLastSequence? <==> n.nextFile.Some? && n.logNumber.Some? && n.lastSequence.None?)
            && (r.Recovered? <==> n.nextFile.Some? && n.logNumber.Some? && n.lastSequence.Some?))
      && (r.Recovered? ==>
            && r.version == version && r.pointers == AllPointed(cs)
            && n.nextFile == Some(r.manifestNumber) && r.nextFile == r.manifestNumber + 1
            && n.logNumber == Some(r.logNumber) && n.lastSequence == Some(r.lastSequence)
            && (if n.prevLogNumber.None? then r.prevLogNumber == 0 else n.prevLogNumber == Some(r.prevLogNumber)))
  {
    hide AllCounted, AllPointed;
    if exists i :: 0 <= i < |cs| && cs[i].comparator.Some? && cs[i].comparator.value != name {
      var i :| 0 <= i < |cs| && cs[i].comparator.Some? && cs[i].comparator.value != name;
      assert Foreign(name, cs[i]);
    }
  }

  lemma {:induction false} EditsOfPrefix(cs: seq<Change>, k: nat)
    requires k <= |cs|
    ensures EditsOf(cs[..k]) == EditsOf(cs)[..k]
  {
  }

  lemma {:induction false} ManifestPrefix(c: KeyCodec, tables: nat -> seq<Entry>, changes: seq<Change>, states: seq<Levels>, k: nat)
    requires IsManifest(c, tables, changes, states) && k <= |changes|
    ensures k < |states| && IsManifest(c, tables, changes[..k], states[..k + 1])
  {
    hide Writable, Saved, EditOk, EditNumbers, EditOf;
    EditsOfPrefix(changes, k);
    var es, vs := EditsOf(changes[..k]), states[..k + 1];
    forall i | 0 <= i < k ensures Saved(vs[i], es[i], vs[i + 1]) && EditOk(es[i]) {
      assert es[i] == EditsOf(changes)[i];
    }
    forall i, j | 0 <= i < j < k ensures EditNumbers(es[i], |es[i].added|) !! EditNumbers(es[j], |es[j].added|) {
      assert es[i] == EditsOf(changes)[i] && es[j] == EditsOf(changes)[j];
    }
  }

  /** The bytes of a manifest. */
  function Log(c: KeyCodec, sum: Sum, changes: seq<Change>): Bytes {
    LogFrom(sum, RecordsOf(c, changes), 0)
  }

  /** How many edits are wholly in the first len bytes of it. */
  function Whole(c: KeyCodec, sum: Sum, changes: seq<Change>, len: nat): nat {
    |Complete(sum, RecordsOf(c, changes), 0, len)|
  }

  lemma {:induction false} AllWhole(c: KeyCodec, sum: Sum, changes: seq<Change>)
    ensures Whole(c, sum, changes, |Log(c, sum, changes)|) == |changes|
  {
    CompleteAll(sum, RecordsOf(c, changes), 0);
  }

  /** Recover, of any byte prefix of a manifest: the edits wholly inside it are replayed in order. On such
      a file no record is corrupt and each decodes, so the source's exits for that are not taken. */
  method Recover(c: KeyCodec, tables: nat -> seq<Entry>, sum: Sum, name: Bytes, file: Bytes, ghost changes: seq<Change>, ghost states: seq<Levels>)
    returns (r: Recovery)
    requires IsManifest(c, tables, changes, states) && file <= Log(c, sum, changes)
    ensures var k := Whole(c, sum, changes, |file|);
      k <= |changes| && k < |states| && r == Outcome(name, changes[..k], states[k])
  {
    hide IsManifest, Writable, Encoded, LogFrom, Complete, Counted, Pointed, Foreign, Saved, EditNumbers, Ahead, EditOf;
    var records, corruptions;
    ghost var parts;
    records, corruptions, parts := ReadLog(sum, file, RecordsOf(c, changes));
    CompleteIsLongest(sum, RecordsOf(c, changes), 0, |file|);
    ghost var k := |records|;
    ManifestPrefix(c, tables, changes, states, k);
    var b := new Builder(NO_FILES);
    var n, pointers := Counters(None, None, None, None), NO_POINTERS;
    NothingSeen(c, tables, changes, states, b);
    for i := 0 to |records|
      invariant fresh(b) && b.Valid() && Holds(b, states[i]) && Ahead(changes, i, b.seen)
      invariant n == AllCounted(changes[..i]) && pointers == AllPointed(changes[..i])
      invariant forall j | 0 <= j < i :: !Foreign(name, changes[j])
    {
      NthChange(c, tables, changes, states, i);
      var ch := DecodeChange(c, tables, records[i], changes[i]);
      if Foreign(name, ch.value) {
        assert changes[..k][i] == changes[i];
        return WrongComparator;
      }
      OneMoreChange(changes, i);
      ghost var seen := b.seen;
      AheadNow(changes, i, seen);
      b.Apply(EditOf(ch.value));
      HoldsNext(b, states[i], EditOf(changes[i]), states[i + 1]);
      AheadNext(changes, i, seen);
      n := Counted(n, ch.value);
      pointers := Pointed(pointers, ch.value.pointers);
    }
    var v := b.SaveTo();
    VersionSaved(c, tables, changes, states, k, v);
    assert forall j | 0 <= j < k :: changes[..k][j] == changes[j];
    r := Concluded(n, v, pointers);
  }

  /** The edits from i on add nothing that has been added. */
  ghost predicate Ahead(changes: seq<Change>, i: nat, seen: set<(nat, nat)>) {
    forall j | i <= j < |changes| :: EditNumbers(EditOf(changes[j]), |changes[j].added|) !! seen
  }

  lemma {:induction false} NothingSeen(c: KeyCodec, tables: nat -> seq<Entry>, changes: seq<Change>, states: seq<Levels>, b: Builder)
    requires IsManifest(c, tables, changes, states) && b.Valid() && b.seen == NumbersOf(NO_FILES)
    requires forall l: nat, f | l < NUM_LEVELS :: b.Has(l, f) <==> f in NO_FILES[l]
    ensures |states| == |changes| + 1 && Holds(b, states[0]) && Ahead(changes, 0, b.seen)
    ensures AllCounted(changes[..0]) == Counters(None, None, None, None) && AllPointed(changes[..0]) == NO_POINTERS
  {
    hide EditNumbers;
    assert NumbersOf(NO_FILES) == {};
  }

  lemma {:induction false} NthChange(c: KeyCodec, tables: nat -> seq<Entry>, changes: seq<Change>, states: seq<Levels>, i: nat)
    requires IsManifest(c, tables, changes, states) && i < |changes|
    ensures |states| == |changes| + 1 && Writable(c, tables, changes[i]) && RecordsOf(c, changes)[i] == Encoded(c, changes[i])
    ensures var edit := EditOf(changes[i]); EditOk(edit) && Saved(states[i], edit, states[i + 1])
    ensures forall j | i < j < |changes| ::
        EditNumbers(EditOf(changes[i]), |changes[i].added|) !! EditNumbers(EditOf(changes[j]), |changes[j].added|)
  {
    hide Writable, Saved, EditOk, EditNumbers, Encoded;
    var es := EditsOf(changes);
    assert es[i] == EditOf(changes[i]);
    forall j | i < j < |changes|
      ensures EditNumbers(EditOf(changes[i]), |changes[i].added|) !! EditNumbers(EditOf(changes[j]), |changes[j].added|)
    {
      assert es[j] == EditOf(changes[j]);
    }
  }

  lemma {:induction false} AheadNow(changes: seq<Change>, i: nat, seen: set<(nat, nat)>)
    requires i < |changes| && Ahead(changes, i, seen)
    ensures EditOf(changes[i]).added == changes[i].added
    ensures EditNumbers(EditOf(changes[i]), |EditOf(changes[i]).added|) !! seen
  {
    hide EditNumbers;
  }

  lemma {:induction false} AheadNext(changes: seq<Change>, i: nat, seen: set<(nat, nat)>)
    requires i < |changes| && Ahead(changes, i, seen)
    requires forall j | i < j < |changes| ::
        EditNumbers(EditOf(changes[i]), |changes[i].added|) !! EditNumbers(EditOf(changes[j]), |changes[j].added|)
    ensures Ahead(changes, i + 1, seen + EditNumbers(EditOf(changes[i]), |EditOf(changes[i]).added|))
  {
    hide EditNumbers;
  }

  lemma {:induction false} VersionSaved(c: KeyCodec, tables: nat -> seq<Entry>, changes: seq<Change>, states: seq<Levels>, k: nat, v: Levels)
    requires IsManifest(c, tables, changes, states) && k <= |changes| && |v| == NUM_LEVELS && k < |states| && |states[k]| == NUM_LEVELS
    requires forall l: nat | l < NUM_LEVELS :: SortedBySmallest(v[l]) && forall f :: f in v[l] <==> f in states[k][l]
    ensures v == states[k]
  {
    ManifestPrefix(c, tables, changes, states, k);
    SavedSorted(states[..k + 1], EditsOf(changes[..k]));
    SameLevels(v, states[k]);
  }

  lemma {:induction false} OneMoreChange(changes: seq<Change>, i: nat)
    requires i < |changes|
    ensures AllCounted(changes[..i + 1]) == Counted(AllCounted(changes[..i]), changes[i])
    ensures AllPointed(changes[..i + 1]) == Pointed(AllPointed(changes[..i]), changes[i].pointers)
  {
    assert changes[..i + 1][..i] == changes[..i];
  }

  // ---- Writing ----

  function SnapshotPointers(ps: Pointers, level: nat): seq<(nat, IKey)>
    requires level <= NUM_LEVELS
    decreases NUM_LEVELS - level
  {
    if level == NUM_LEVELS then []
    else (if ps[level].Some? then [(level, ps[level].value)] else []) + SnapshotPointers(ps, level + 1)
  }

  /** The edit that WriteSnapshot writes. */
  function Snapshot(name: Bytes, ps: Pointers, levels: Levels): Change {
    Change(Some(name), None, None, None, None, SnapshotPointers(ps, 0), [], SnapshotAdditions(levels, 0))
  }

  /** The edit as LogAndApply completes it. */
  function Completed(ch: Change, logNumber: nat, prevLogNumber: nat, nextFile: nat, lastSequence: nat): Change {
    ch.(logNumber := Later(Some(logNumber), ch.logNumber), prevLogNumber := Later(Some(prevLogNumber), ch.prevLogNumber),
        nextFile := Some(nextFile), lastSequence := Some(lastSequence))
  }

  class VersionSet {
    const sum: Sum
    const codec: KeyCodec
    const name: Bytes
    var current: Levels
    var pointers: Pointers
    var nextFile: nat
    var lastSequence: nat
    var logNumber: nat
    var prevLogNumber: nat
    var descriptorLog: Writer?
    /** the contents of the table files, the edits in the manifest, and the versions they installed */
    ghost const tables: nat -> seq<Entry>
    ghost var changes: seq<Change>
    ghost var states: seq<Levels>

    /** The manifest file is open and holds the edits so far. */
    ghost predicate Logging()
      reads this`descriptorLog, this`changes, this`states, descriptorLog
    {
      && descriptorLog != null && descriptorLog.Valid() && descriptorLog.sum == sum
      && descriptorLog.dest == Log(codec, sum, changes) && IsManifest(codec, tables, changes, states)
    }

    ghost predicate Valid()
      reads this, descriptorLog
    {
      && |current| == NUM_LEVELS && LevelsSorted(current)
      && (descriptorLog == null ==> UniqueNumbers(current))
      && (descriptorLog != null ==>
            Logging() && |states| == |changes| + 1 && states[|changes|] == current && AllPointed(changes) == pointers)
    }

    /** A version set before its first LogAndApply, on some recovered version. */
    constructor (sum: Sum, codec: KeyCodec, name: Bytes, ghost tables: nat -> seq<Entry>, current: Levels, pointers: Pointers,
                 nextFile: nat, lastSequence: nat, logNumber: nat, prevLogNumber: nat)
      requires |current| == NUM_LEVELS && LevelsSorted(current) && UniqueNumbers(current)
      ensures Valid() && descriptorLog == null && this.current == current && this.pointers == pointers
    {
      this.sum, this.codec, this.name, this.tables := sum, codec, name, tables;
      this.current, this.pointers, this.nextFile, this.lastSequence := current, pointers, nextFile, lastSequence;
      this.logNumber, this.prevLogNumber, descriptorLog := logNumber, prevLogNumber, null;
      changes, states := [], [];
    }

    /** One more record. */
    method WriteRecord(ch: Change, ghost v: Levels)
      requires Logging() && Writable(codec, tables, ch) && EditOk(EditOf(ch)) && |changes| < |states|
      requires EditNumbers(EditOf(ch), |ch.added|) !! AllNumbers(changes) && Saved(states[|changes|], EditOf(ch), v)
      modifies this`changes, this`states, descriptorLog
      ensures Logging() && changes == old(changes) + [ch] && states == old(states) + [v]
    {
      hide LogFrom, Fragments, IsManifest, Encoded, Writable, EditOk, EditNumbers, Saved, OffsetAfter;
      var record := EncodeChange(codec, ch);
      LogGrows(sum, RecordsOf(codec, changes), record, descriptorLog.blockOffset);
      ManifestGrows(codec, tables, changes, states, ch, v);
      MoreRecords(codec, changes, ch);
      descriptorLog.AddRecord(record);
      changes, states := changes + [ch], states + [v];
    }

    /** A new manifest starts with the version before the edit. */
    method WriteSnapshot()
      requires descriptorLog != null && descriptorLog.Valid() && descriptorLog.sum == sum && descriptorLog.dest == []
      requires |current| == NUM_LEVELS && LevelsSorted(current) && UniqueNumbers(current)
      requires Writable(codec, tables, Snapshot(name, pointers, current))
      modifies this`changes, this`states, descriptorLog
      ensures Logging() && changes == [Snapshot(name, pointers, current)] && states == [NO_FILES, current]
      ensures AllPointed(changes) == pointers
    {
      hide Writable, EditOk, EditNumbers, Saved, UniqueNumbers, LevelsSorted, IsManifest, Log, Snapshot, EditOf, AllNumbers, AllPointed;
      var ch := Snapshot(name, pointers, current);
      changes, states := [], [NO_FILES];
      NothingLogged(sum, codec, tables);
      SnapshotRight(name, pointers, current);
      WriteRecord(ch, current);
      PointersRestored(name, pointers, current);
    }

    /** The manifest is created if there is none yet. */
    method OpenManifest()
      requires |current| == NUM_LEVELS && LevelsSorted(current)
      requires descriptorLog == null ==> UniqueNumbers(current) && Writable(codec, tables, Snapshot(name, pointers, current))
      requires descriptorLog != null ==> Logging() && states[|changes|] == current
      modifies this`descriptorLog, this`changes, this`states
      ensures Logging() && |states| == |changes| + 1 && states[|changes|] == current
      ensures old(descriptorLog) != null ==> descriptorLog == old(descriptorLog) && changes == old(changes)
      ensures old(descriptorLog) == null ==>
          fresh(descriptorLog) && changes == [Snapshot(name, pointers, current)] && AllPointed(changes) == pointers
          && AllNumbers(changes) <= NumbersOf(current)
    {
      hide IsManifest, Writable, UniqueNumbers, NumbersOf, LogFrom, AllNumbers, RecordsOf;
      if descriptorLog == null {
        descriptorLog := new Writer(sum, []);
        WriteSnapshot();
        SnapshotHasNumbers(name, pointers, current);
      } else {
        NumbersInManifest(codec, tables, changes, states);
      }
    }

    lemma {:induction false} LoggedNumbers()
      requires Logging() && |states| == |changes| + 1
      ensures NumbersOf(states[|changes|]) <= AllNumbers(changes)
    {
      NumbersInManifest(codec, tables, changes, states);
    }

    /** LogAndApply: the edit is completed and applied, a snapshot written first if there is no manifest yet,
        the record added, and the new version installed. */
    method LogAndApply(ch0: Change)
      requires Valid() && EditOk(EditOf(ch0))
      requires EditNumbers(EditOf(ch0), |ch0.added|) !! if descriptorLog == null then NumbersOf(current) else AllNumbers(changes)
      requires ch0.logNumber.Some? ==> logNumber <= ch0.logNumber.value < nextFile
      requires Writable(codec, tables, Completed(ch0, logNumber, prevLogNumber, nextFile, lastSequence))
      requires descriptorLog == null ==> Writable(codec, tables, Snapshot(name, Pointed(pointers, ch0.pointers), current))
      modifies this, descriptorLog
      ensures Valid() && descriptorLog != null && (descriptorLog == old(descriptorLog) || fresh(descriptorLog))
      ensures Saved(old(current), EditOf(ch0), current) && pointers == Pointed(old(pointers), ch0.pointers)
      ensures changes == (if old(descriptorLog) == null then [Snapshot(name, pointers, old(current))] else old(changes))
                         + [Completed(ch0, old(logNumber), old(prevLogNumber), nextFile, lastSequence)]
      ensures var last := changes[|changes| - 1];
        && last.comparator == ch0.comparator && last.pointers == ch0.pointers && last.deleted == ch0.deleted && last.added == ch0.added
        && last.logNumber == Some(logNumber) && last.prevLogNumber == Some(prevLogNumber)
        && last.nextFile == Some(nextFile) && last.lastSequence == Some(lastSequence)
      ensures logNumber == (if ch0.logNumber.Some? then ch0.logNumber.value else old(logNumber))
      ensures prevLogNumber == (if ch0.prevLogNumber.Some? then ch0.prevLogNumber.value else old(prevLogNumber))
      ensures nextFile == old(nextFile) && lastSequence == old(lastSequence)
    {
      hide Logging, IsManifest, Writable, EditOk, EditNumbers, Saved, UniqueNumbers, NumbersOf, LogFrom, AllNumbers, RecordsOf, Pointed, AllPointed, Snapshot, SnapshotPointers, SnapshotAdditions, LevelsSorted;
      var ch := Completed(ch0, logNumber, prevLogNumber, nextFile, lastSequence);
      assert EditOf(ch) == EditOf(ch0);
      if descriptorLog != null {
        LoggedNumbers();
      }
      pointers := Pointed(pointers, ch.pointers);
      var v := Install(current, EditOf(ch));
      OpenManifest();
      ghost var before := changes;
      WriteRecord(ch, v);
      MorePointers(before, ch);
      PointedTwice(old(pointers), ch.pointers);
      current, logNumber, prevLogNumber := v, ch.logNumber.value, ch.prevLogNumber.value;
    }
  }

  /** Every (level, number) that the edits add. */
  ghost function AllNumbers(cs: seq<Change>): set<(nat, nat)> {
    if cs == [] then {} else AllNumbers(cs[..|cs| - 1]) + EditNumbers(EditOf(cs[|cs| - 1]), |cs[|cs| - 1].added|)
  }

  lemma {:induction false} NumbersIncluded(cs: seq<Change>, i: nat)
    requires i < |cs|
    ensures EditNumbers(EditOf(cs[i]), |cs[i].added|) <= AllNumbers(cs)
  {
    hide EditNumbers;
    if i < |cs| - 1 {
      NumbersIncluded(cs[..|cs| - 1], i);
    }
  }

  lemma {:induction false} NumbersSaved(a: Levels, edit: Edit, b: Levels)
    requires Saved(a, edit, b)
    ensures NumbersOf(b) <= NumbersOf(a) + EditNumbers(edit, |edit.added|)
  {
    forall p | p in NumbersOf(b) ensures p in NumbersOf(a) + EditNumbers(edit, |edit.added|) {
      var l: nat, f :| l < |b| && f in b[l] && p == (l, f.number);
      assert LevelSaved(a[l], edit, l, b[l]);
      if (l, f) in edit.added {
        var i :| 0 <= i < |edit.added| && edit.added[i] == (l, f);
        assert NumberAt(edit, i) == p;
      }
    }
  }

  lemma {:induction false} NumbersInManifest(c: KeyCodec, tables: nat -> seq<Entry>, changes: seq<Change>, states: seq<Levels>)
    requires IsManifest(c, tables, changes, states)
    ensures |states| == |changes| + 1 && NumbersOf(states[|changes|]) <= AllNumbers(changes)
    decreases |changes|
  {
    hide Writable, EditNumbers, Saved, EditOk;
    var n := |changes|;
    if n == 0 {
      assert NumbersOf(NO_FILES) == {};
    } else {
      ManifestPrefix(c, tables, changes, states, n - 1);
      NumbersInManifest(c, tables, changes[..n - 1], states[..n]);
      NthChange(c, tables, changes, states, n - 1);
      NumbersSaved(states[n - 1], EditOf(changes[n - 1]), states[n]);
      assert EditOf(changes[n - 1]).added == changes[n - 1].added;
    }
  }

  lemma {:induction false} ManifestGrows(c: KeyCodec, tables: nat -> seq<Entry>, changes: seq<Change>, states: seq<Levels>, ch: Change, v: Levels)
    requires IsManifest(c, tables, changes, states) && |changes| < |states|
    requires Writable(c, tables, ch) && EditOk(EditOf(ch)) && EditNumbers(EditOf(ch), |ch.added|) !! AllNumbers(changes)
    requires Saved(states[|changes|], EditOf(ch), v)
    ensures IsManifest(c, tables, changes + [ch], states + [v])
  {
    hide Writable, EditNumbers, Saved, EditOk, AllNumbers;
    var all, es, vs := changes + [ch], EditsOf(changes + [ch]), states + [v];
    forall i | 0 <= i < |changes|
      ensures es[i] == EditOf(changes[i]) && EditNumbers(EditOf(changes[i]), |changes[i].added|) <= AllNumbers(changes)
      ensures EditOk(es[i]) && Saved(vs[i], es[i], vs[i + 1])
    {
      assert all[i] == changes[i];
      NumbersIncluded(changes, i);
      NthChange(c, tables, changes, states, i);
    }
    AddsItsOwn(ch);
    forall i, j | 0 <= i < j < |all| ensures EditNumbers(es[i], |es[i].added|) !! EditNumbers(es[j], |es[j].added|) {
      AddsItsOwn(changes[i]);
      if j < |changes| {
        NthChange(c, tables, changes, states, i);
        AddsItsOwn(changes[j]);
      }
    }
  }

  lemma {:induction false} AddsItsOwn(ch: Change)
    ensures EditOf(ch).added == ch.added
  {
  }

  lemma {:induction false} LogGrows(sum: Sum, rs: seq<Bytes>, r: Bytes, o: nat)
    requires o <= BLOCK_SIZE && SamePlace(|LogFrom(sum, rs, 0)|, o)
    ensures LogFrom(sum, rs, 0) + Fragments(sum, r, o, true) == LogFrom(sum, rs + [r], 0)
  {
    hide Fragments, OffsetAfter;
    LogFromSplit(sum, rs, [r], 0);
    OffsetTracksLog(sum, rs, 0, 0);
    SamePlaceSameLog(sum, [r], OffsetAfterAll(rs, 0), o);
    assert [r][1..] == [];
    assert LogFrom(sum, [r], o) == Fragments(sum, r, o, true) + [];
  }

  lemma {:induction false} MoreRecords(c: KeyCodec, changes: seq<Change>, ch: Change)
    ensures RecordsOf(c, changes + [ch]) == RecordsOf(c, changes) + [Encoded(c, ch)]
  {
    hide Encoded;
  }

  lemma {:induction false} NothingLogged(sum: Sum, c: KeyCodec, tables: nat -> seq<Entry>)
    ensures Log(c, sum, []) == [] && IsManifest(c, tables, [], [NO_FILES]) && AllNumbers([]) == {}
  {
  }

  lemma {:induction false} SnapshotRight(name: Bytes, ps: Pointers, levels: Levels)
    requires |levels| == NUM_LEVELS && LevelsSorted(levels) && UniqueNumbers(levels)
    ensures var ch := Snapshot(name, ps, levels);
      && EditOf(ch) == SnapshotEdit(levels) && EditOk(EditOf(ch)) && Saved(NO_FILES, EditOf(ch), levels)
      && EditOf(ch).added == ch.added && EditNumbers(EditOf(ch), |ch.added|) !! AllNumbers([])
  {
    hide EditNumbers;
    SnapshotEditRestores(levels);
    SnapshotEditOk(levels, 0);
    assert EditOf(Snapshot(name, ps, levels)) == SnapshotEdit(levels);
  }

  lemma {:induction false} SnapshotHasNumbers(name: Bytes, ps: Pointers, levels: Levels)
    ensures AllNumbers([Snapshot(name, ps, levels)]) <= NumbersOf(levels)
  {
    hide EditNumbers, NumbersOf;
    var cs := [Snapshot(name, ps, levels)];
    assert cs[..0] == [] && AllNumbers([]) == {};
    assert EditOf(cs[0]) == SnapshotEdit(levels);
    SnapshotNumbers(levels);
  }

  lemma {:induction false} MorePointers(changes: seq<Change>, ch: Change)
    ensures AllPointed(changes + [ch]) == Pointed(AllPointed(changes), ch.pointers)
  {
    assert (changes + [ch])[..|changes|] == changes;
  }

  /** The last pointer for a level is what counts. */
  lemma {:induction false} PointedAt(ps: Pointers, more: seq<(nat, IKey)>, level: nat)
    requires level < NUM_LEVELS
    ensures (forall i | 0 <= i < |more| :: more[i].0 != level) ==> Pointed(ps, more)[level] == ps[level]
    ensures forall qs: Pointers :: (exists i :: 0 <= i < |more| && more[i].0 == level) ==> Pointed(qs, more)[level] == Pointed(ps, more)[level]
  {
    if more != [] {
      var before, last := more[..|more| - 1], more[|more| - 1];
      PointedAt(ps, before, level);
      forall qs: Pointers | exists i :: 0 <= i < |more| && more[i].0 == level
        ensures Pointed(qs, more)[level] == Pointed(ps, more)[level]
      {
        if last.0 != level {
          var i :| 0 <= i < |more| && more[i].0 == level;
          assert before[i] == more[i];
        }
      }
    }
  }

  lemma {:induction false} PointedTwice(ps: Pointers, more: seq<(nat, IKey)>)
    ensures Pointed(Pointed(ps, more), more) == Pointed(ps, more)
  {
    hide Pointed;
    forall level: nat | level < NUM_LEVELS ensures Pointed(Pointed(ps, more), more)[level] == Pointed(ps, more)[level] {
      PointedAt(ps, more, level);
      PointedAt(Pointed(ps, more), more, level);
    }
  }

  lemma {:induction false} PointedAppend(ps: Pointers, a: seq<(nat, IKey)>, b: seq<(nat, IKey)>)
    ensures Pointed(ps, a + b) == Pointed(Pointed(ps, a), b)
  {
    if b == [] {
      assert a + b == a;
    } else {
      assert (a + b)[..|a + b| - 1] == a + b[..|b| - 1];
      PointedAppend(ps, a, b[..|b| - 1]);
    }
  }

  /** The pointers of a snapshot are those it was written from. */
  lemma {:induction false} SnapshotPointed(qs: Pointers, ps: Pointers, level: nat)
    requires level <= NUM_LEVELS
    requires forall l | level <= l < NUM_LEVELS :: qs[l] == None
    ensures var r := Pointed(qs, SnapshotPointers(ps, level));
      forall l | 0 <= l < NUM_LEVELS :: r[l] == if l < level then qs[l] else ps[l]
    decreases NUM_LEVELS - level
  {
    if level < NUM_LEVELS {
      var one: seq<(nat, IKey)> := if ps[level].Some? then [(level, ps[level].value)] else [];
      OnePointer(qs, one);
      PointedAppend(qs, one, SnapshotPointers(ps, level + 1));
      SnapshotPointed(Pointed(qs, one), ps, level + 1);
    }
  }

  lemma {:induction false} OnePointer(qs: Pointers, one: seq<(nat, IKey)>)
    requires |one| <= 1 && (one != [] ==> one[0].0 < NUM_LEVELS)
    ensures Pointed(qs, one) == if one == [] then qs else qs[one[0].0 := Some(one[0].1)]
  {
    if one != [] {
      assert one[..0] == [];
    }
  }

  lemma {:induction false} PointersRestored(name: Bytes, ps: Pointers, levels: Levels)
    ensures AllPointed([Snapshot(name, ps, levels)]) == ps
  {
    hide Pointed, SnapshotPointers, SnapshotAdditions;
    var cs := [Snapshot(name, ps, levels)];
    assert cs[..0] == [] && AllPointed([]) == NO_POINTERS;
    SnapshotPointed(NO_POINTERS, ps, 0);
    assert AllPointed(cs) == Pointed(NO_POINTERS, SnapshotPointers(ps, 0));
  }
}
