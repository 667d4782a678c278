/**
 * Internal keys and the entries they name (db/dbformat.h, db/dbformat.cc).
 *
 * The store only ever compares user keys. A total order on byte strings is an order on a
 * countable set, so it embeds in the rationals; a user key is represented by its image there,
 * and `==` on images is "the comparator says equal".
 */
module InternalKeys {
  import opened Basics

  type UserKey = real
  type Value = Bytes

  /** kMaxSequenceNumber: the low 8 bits of a packed word are the value type. */
  const MAX_SEQUENCE: nat := 0xFF_FFFF_FFFF_FFFF
  type Sequence = s: nat | s <= MAX_SEQUENCE

  datatype Op = Delete | Put(value: Value)

  /** kind is the ValueType number: 0 for a deletion, 1 for a value and for every seek. */
  datatype IKey = IKey(user: UserKey, seqno: Sequence, kind: nat)

  /** PackSequenceAndType. */
  function Pack(s: Sequence, kind: nat): nat {
    s * 256 + kind
  }

  /** InternalKeyComparator: user keys ascending, then the packed word descending. */
  predicate Before(a: IKey, b: IKey) {
    a.user < b.user || (a.user == b.user && Pack(a.seqno, a.kind) > Pack(b.seqno, b.kind))
  }

  datatype Entry = Entry(user: UserKey, seqno: Sequence, op: Op) {
    function Key(): IKey {
      IKey(user, seqno, if op.Delete? then 0 else 1)
    }
  }

  /** The key a lookup of `user` at snapshot `s` seeks to (LookupKey). */
  function LookupKey(user: UserKey, s: Sequence): IKey {
    IKey(user, s, 1)
  }

  /** A lookup key comes after exactly the entries that are smaller keys or too new to see. */
  lemma {:induction false} LookupKeySplits(user: UserKey, s: Sequence, e: Entry)
    ensures Before(e.Key(), LookupKey(user, s)) <==> e.user < user || (e.user == user && e.seqno > s)
  {
  }

  predicate SortedEntries(es: seq<Entry>) {
    forall i, j | 0 <= i < j < |es| :: Before(es[i].Key(), es[j].Key())
  }

  /** What a search of one sorted source reports (SaverState). */
  datatype Probe = Absent | Found(value: Value) | Deleted

  function Outcome(op: Op): Probe {
    if op.Delete? then Deleted else Found(op.value)
  }

  /** e is the newest version of `user` in E that a reader at snapshot s may see. */
  ghost predicate Newest(E: set<Entry>, user: UserKey, s: nat, e: Entry) {
    && e in E && e.user == user && e.seqno <= s
    && forall x | x in E && x.user == user && x.seqno <= s :: x.seqno <= e.seqno
  }

  ghost predicate NoneVisible(E: set<Entry>, user: UserKey, s: nat) {
    forall x | x in E :: x.user == user ==> x.seqno > s
  }

  /** p is the right report for `user` at snapshot s from the entries E. */
  ghost predicate Answers(E: set<Entry>, user: UserKey, s: nat, p: Probe) {
    if p.Absent? then NoneVisible(E, user, s)
    else exists e :: Newest(E, user, s, e) && p == Outcome(e.op)
  }

  /** Every entry of A is newer than every entry of B for the same user key. */
  ghost predicate NewerThan(A: set<Entry>, B: set<Entry>) {
    forall a, b | a in A && b in B && a.user == b.user :: a.seqno > b.seqno
  }

  /** Searching a newer source first and an older one only on a miss searches their union. */
  lemma {:induction false} AnswersUnion(A: set<Entry>, B: set<Entry>, user: UserKey, s: nat, p: Probe, q: Probe)
    requires NewerThan(A, B)
    requires Answers(A, user, s, p)
    requires p.Absent? ==> Answers(B, user, s, q)
    ensures Answers(A + B, user, s, if p.Absent? then q else p)
  {
    if !p.Absent? {
      var e :| Newest(A, user, s, e) && p == Outcome(e.op);
      assert Newest(A + B, user, s, e);
    } else if !q.Absent? {
      var e :| Newest(B, user, s, e) && q == Outcome(e.op);
      assert Newest(A + B, user, s, e);
    }
  }

  /** Entries with the same user key and sequence number are the same entry. */
  ghost predicate Unambiguous(E: set<Entry>) {
    forall a, b | a in E && b in E && a.user == b.user && a.seqno == b.seqno :: a == b
  }

  lemma {:induction false} AnswersUnique(E: set<Entry>, user: UserKey, s: nat, p: Probe, q: Probe)
    requires Unambiguous(E)
    requires Answers(E, user, s, p) && Answers(E, user, s, q)
    ensures p == q
  {
    if !p.Absent? && !q.Absent? {
      var e :| Newest(E, user, s, e) && p == Outcome(e.op);
      var f :| Newest(E, user, s, f) && q == Outcome(f.op);
      assert e == f;
    }
  }

  ghost function EntrySet(es: seq<Entry>): (r: set<Entry>)
    ensures forall e :: e in r <==> e in es
  {
    set e | e in es
  }

  /** The first entry at or after target, as Iterator::Seek positions every leveldb iterator. */
  function SeekIndex(es: seq<Entry>, target: IKey): (i: nat)
    ensures i <= |es|
    ensures forall j | 0 <= j < i :: Before(es[j].Key(), target)
    ensures i < |es| ==> !Before(es[i].Key(), target)
  {
    if es == [] || !Before(es[0].Key(), target) then 0
    else 1 + SeekIndex(es[1..], target)
  }

  /** Seek, then check that the entry found belongs to the user key looked up
      (MemTable::Get, and TableCache::Get with SaveValue). */
  function SourceGet(es: seq<Entry>, user: UserKey, s: Sequence): Probe {
    var i := SeekIndex(es, LookupKey(user, s));
    if i < |es| && es[i].user == user then Outcome(es[i].op) else Absent
  }

  /** In a sorted source the one entry a seek lands on decides the lookup. */
  lemma {:induction false} SourceGetAnswers(es: seq<Entry>, user: UserKey, s: Sequence)
    requires SortedEntries(es)
    ensures Answers(EntrySet(es), user, s, SourceGet(es, user, s))
  {
    var i := SeekIndex(es, LookupKey(user, s));
    forall j | 0 <= j < |es|
      ensures j < i ==> es[j].user < user || (es[j].user == user && es[j].seqno > s)
      ensures j >= i ==> es[j].user > user || (es[j].user == user && es[j].seqno <= s)
      ensures j > i && es[i].user == es[j].user ==> es[j].seqno <= es[i].seqno
    {
      LookupKeySplits(user, s, es[j]);
    }
    if i < |es| && es[i].user == user {
      assert Newest(EntrySet(es), user, s, es[i]);
    }
  }
}
