/** How the steps that write entries, and those that only rearrange them, affect reads. */
module LsmReads {
  import opened InternalKeys
  import opened Versions
  import opened Compactions
  import opened Lsm

  lemma {:induction false} FromHistoryUnambiguous(history: seq<Write>, E: set<Entry>)
    requires FromHistory(history, E)
    ensures Unambiguous(E)
  {
  }

  /** Entries too new to be seen do not change an answer. */
  lemma {:induction false} InvisibleEntries(E: set<Entry>, more: set<Entry>, user: UserKey, s: nat, p: Probe)
    requires forall e | e in more :: e.seqno > s
    ensures Answers(E + more, user, s, p) <==> Answers(E, user, s, p)
  {
    if p.Absent? {
    } else {
      forall e | Newest(E, user, s, e)
        ensures Newest(E + more, user, s, e)
      {
      }
      forall e | Newest(E + more, user, s, e)
        ensures Newest(E, user, s, e)
      {
      }
    }
  }

  lemma {:induction false} InsertReads(E: set<Entry>, history: seq<Write>, w: Write, lo: nat, hi: nat)
    requires hi <= |history| && |history| + 1 < MAX_SEQUENCE
    requires AllReadsRight(E, history, lo, hi)
    ensures AllReadsRight(E + {Entry(w.user, |history| + 1, w.op)}, history + [w], lo, hi)
  {
    var e := Entry(w.user, |history| + 1, w.op);
    forall user, s, p | lo <= s <= hi && Answers(E + {e}, user, s, p)
      ensures ViewOf(p) == HistoryGet(history + [w], user, s)
    {
      InvisibleEntries(E, {e}, user, s, p);
      HistoryGetPrefix(history, [w], user, s);
      assert ReadsRight(E, history, user, s);
    }
  }

  /** Publishing one more write that is stored. */
  lemma {:induction false} PublishOne(E: set<Entry>, history: seq<Write>, user: UserKey, s: nat)
    requires s + 1 <= |history| < MAX_SEQUENCE && FromHistory(history, E)
    requires EntryAt(history, s + 1) in E && ReadsRight(E, history, user, s)
    ensures ReadsRight(E, history, user, s + 1)
  {
    var e := EntryAt(history, s + 1);
    forall p | Answers(E, user, s + 1, p)
      ensures ViewOf(p) == HistoryGet(history, user, s + 1)
    {
      if e.user == user {
        assert Newest(E, user, s + 1, e);
        assert Answers(E, user, s + 1, Outcome(e.op));
        FromHistoryUnambiguous(history, E);
        AnswersUnique(E, user, s + 1, p, Outcome(e.op));
      } else {
        if !p.Absent? {
          var x :| Newest(E, user, s + 1, x) && p == Outcome(x.op);
          assert x == EntryAt(history, x.seqno);
          assert Newest(E, user, s, x);
        }
        assert Answers(E, user, s, p);
      }
    }
  }

  lemma {:induction false} PublishReads(E: set<Entry>, history: seq<Write>, lo: nat, hi: nat, user: UserKey, s: nat)
    requires lo <= hi <= |history| < MAX_SEQUENCE && FromHistory(history, E) && AllReadsRight(E, history, lo, hi)
    requires forall i | hi < i <= |history| :: EntryAt(history, i) in E
    requires lo <= s <= |history|
    ensures ReadsRight(E, history, user, s)
  {
    if s > hi {
      PublishReads(E, history, lo, hi, user, s - 1);
      PublishOne(E, history, user, s - 1);
    }
  }

  // ---- What a compaction does to reads ----

  /** The inputs E leave, the kept ones return, everything in `rest` stays; an older version of an
      input key with no deeper file stays only beside the outputs. */
  ghost predicate Rewrites(rest: set<Entry>, levels: Levels, level: nat, E: set<Entry>, beside: set<Entry>, s: nat, after: set<Entry>) {
    && rest !! E && beside <= rest
    && (forall e :: e in after <==> e in rest || Kept(levels, level, E, e, s))
    && (forall t, r | t in E && r in rest && t.user == r.user && r.seqno < t.seqno && BaseLevel(levels, level, t.user) ::
          r in beside)
  }

  /** Removing superseded entries and tombstones changes no read, unless a tombstone was hiding
      something left beside the outputs. */
  lemma {:induction false} RewriteKeepsRead(history: seq<Write>, rest: set<Entry>, levels: Levels, level: nat,
      E: set<Entry>, beside: set<Entry>, smallest: nat, after: set<Entry>, user: UserKey, s: nat)
    requires smallest <= s <= |history| && Unambiguous(rest + E)
    requires Rewrites(rest, levels, level, E, beside, smallest, after)
    requires NeverExposes(rest + E, levels, level, E, beside, smallest)
    requires ReadsRight(rest + E, history, user, s)
    ensures ReadsRight(after, history, user, s)
  {
    var live := rest + E;
    forall p | Answers(after, user, s, p)
      ensures ViewOf(p) == HistoryGet(history, user, s)
    {
      if NoneVisible(live, user, s) {
        assert Answers(live, user, s, Absent);
      } else {
        var n := NewestExists(live, user, s);
        assert Answers(live, user, s, Outcome(n.op));
        if n in after {
          assert Newest(after, user, s, n);
          assert Answers(after, user, s, Outcome(n.op));
          AnswersUnique(after, user, s, p, Outcome(n.op));
        } else {
          DroppedTombstone(rest, levels, level, E, beside, smallest, after, user, s, n, p);
        }
      }
    }
  }

  lemma {:induction false} NewestExists(E: set<Entry>, user: UserKey, s: nat) returns (n: Entry)
    requires !NoneVisible(E, user, s)
    ensures Newest(E, user, s, n)
  {
    n :| n in E && n.user == user && n.seqno <= s;
    while !Newest(E, user, s, n)
      invariant n in E && n.user == user && n.seqno <= s
      decreases s - n.seqno
    {
      var x :| x in E && x.user == user && x.seqno <= s && x.seqno > n.seqno;
      n := x;
    }
  }

  lemma {:induction false} AnswerExists(E: set<Entry>, user: UserKey, s: nat) returns (p: Probe)
    ensures Answers(E, user, s, p)
  {
    if NoneVisible(E, user, s) {
      p := Absent;
    } else {
      var n := NewestExists(E, user, s);
      p := Outcome(n.op);
    }
  }

  /** The newest visible version disappeared: it was an obsolete tombstone, and nothing live shows. */
  lemma {:induction false} DroppedTombstone(rest: set<Entry>, levels: Levels, level: nat,
      E: set<Entry>, beside: set<Entry>, smallest: nat, after: set<Entry>, user: UserKey, s: nat, n: Entry, p: Probe)
    requires smallest <= s && Unambiguous(rest + E)
    requires Rewrites(rest, levels, level, E, beside, smallest, after)
    requires NeverExposes(rest + E, levels, level, E, beside, smallest)
    requires Newest(rest + E, user, s, n) && n !in after && Answers(after, user, s, p)
    ensures n.op.Delete? && ViewOf(p) == NotFound
  {
    assert Obsolete(levels, level, n, smallest);
    if !p.Absent? {
      var x :| Newest(after, user, s, x) && p == Outcome(x.op);
      assert x.seqno < n.seqno;
      assert x in rest by {
        if x !in rest {
          assert Superseded(E, x, smallest);
        }
      }
      assert x in beside;
      assert Newest(beside, user, smallest, x);
      assert Newest(rest + E, user, smallest, n);
      assert !Exposes(rest + E, levels, level, E, beside, smallest, n, x);
    }
  }

  /** Conversely an exposed value is read by the oldest reader. */
  lemma {:induction false} ExposedValueIsRead(history: seq<Write>, rest: set<Entry>, levels: Levels, level: nat,
      E: set<Entry>, beside: set<Entry>, smallest: nat, after: set<Entry>, t: Entry, x: Entry)
    requires smallest <= |history| && Unambiguous(rest + E)
    requires Rewrites(rest, levels, level, E, beside, smallest, after)
    requires Exposes(rest + E, levels, level, E, beside, smallest, t, x)
    requires ReadsRight(rest + E, history, t.user, smallest)
    ensures !ReadsRight(after, history, t.user, smallest)
  {
    assert Answers(rest + E, t.user, smallest, Outcome(t.op));
    assert !Kept(levels, level, E, t, smallest);
    forall y | y in after && y.user == t.user && y.seqno <= smallest
      ensures y.seqno <= x.seqno
    {
      assert y.seqno < t.seqno;
      if y !in rest {
        assert Superseded(E, y, smallest);
      }
      assert y in beside;
    }
    assert Newest(after, t.user, smallest, x);
    assert Answers(after, t.user, smallest, Outcome(x.op));
  }
}
