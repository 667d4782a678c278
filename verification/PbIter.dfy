/** The cyclic iterator over the fields of a descriptor (pb_common.c). */
module PbIteration {
  import opened PbFormat

  /** How many of the first n fields are required. */
  function RequiredBefore(fs: seq<Field>, n: nat): (r: nat)
    requires n <= |fs|
    ensures r <= n
  {
    if n == 0 then 0 else RequiredBefore(fs, n - 1) + if fs[n - 1].rule.Required? then 1 else 0
  }

  lemma {:induction false} RequiredOrder(fs: seq<Field>, i: nat, j: nat)
    requires i < j <= |fs| && fs[i].rule.Required?
    ensures RequiredBefore(fs, i) < RequiredBefore(fs, j)
    decreases j
  {
    if i < j - 1 {
      RequiredOrder(fs, i, j - 1);
    }
  }

  class FieldIter {
    const fields: seq<Field>
    var pos: nat
    var requiredFieldIndex: nat

    ghost predicate Valid()
      reads this
    {
      && (if fields == [] then pos == 0 else pos < |fields|)
      && requiredFieldIndex == RequiredBefore(fields, pos)
    }

    /** pb_field_iter_begin. */
    constructor (fields: seq<Field>)
      ensures Valid() && this.fields == fields && pos == 0
    {
      this.fields, pos, requiredFieldIndex := fields, 0, 0;
    }

    /** pb_field_iter_next: false when it has come round to the first field. */
    method Next() returns (more: bool)
      requires Valid()
      modifies this
      ensures Valid() && more == (old(pos) + 1 < |fields|)
      ensures pos == if more then old(pos) + 1 else 0
    {
      if fields == [] {
        return false;
      }
      if pos + 1 == |fields| {
        pos, requiredFieldIndex := 0, 0;
        return false;
      }
      if fields[pos].rule.Required? {
        requiredFieldIndex := requiredFieldIndex + 1;
      }
      pos := pos + 1;
      more := true;
    }

    /** pb_field_iter_find: search from the current field once round. */
    method Find(tag: nat) returns (found: bool)
      requires Valid()
      modifies this
      ensures Valid()
      ensures found ==> pos < |fields| && fields[pos].tag == tag
      ensures !found ==> pos == old(pos) && forall i | 0 <= i < |fields| :: fields[i].tag != tag
    {
      if fields == [] {
        return false;
      }
      var start := pos;
      while true
        invariant Valid()
        invariant forall i | 0 <= i < |fields| :: Passed(start, i) ==> fields[i].tag != tag
        decreases if pos >= start then |fields| - pos + start else start - pos
      {
        if fields[pos].tag == tag {
          return true;
        }
        var more := Next();
        if pos == start {
          return false;
        }
      }
    }

    /** The search that began at start has been at i and gone on. */
    ghost predicate Passed(start: nat, i: nat)
      reads this
    {
      if pos >= start then start <= i < pos else i >= start || i < pos
    }
  }

  const MAX_REQUIRED: nat := 64

  /** A 32-bit word of fields_seen, as the set of its one bits. */
  type Word = set<nat>

  /** ~0 >> (32 - n). */
  function LowBits(n: nat): (w: Word)
    ensures forall b: nat :: b in w <==> b < n
  {
    if n == 0 then {} else LowBits(n - 1) + {n - 1}
  }

  /** The two words have a bit for each of the first 64 required fields that have been seen. */
  ghost predicate SeenBits(fs: seq<Field>, seen: set<nat>, words: seq<Word>) {
    && |words| == 2
    && (forall i | i in seen :: i < |fs|)
    && (forall w: nat, b: nat | w < 2 :: BitRight(fs, seen, words[w], w, b))
  }

  ghost predicate BitRight(fs: seq<Field>, seen: set<nat>, word: Word, w: nat, b: nat) {
    b in word <==> b < 32 && SeenIndex(fs, seen, 32 * w + b)
  }

  /** A required field that has been seen has the given number among the required fields. */
  ghost predicate SeenIndex(fs: seq<Field>, seen: set<nat>, index: nat) {
    exists i :: i in seen && i < |fs| && fs[i].rule.Required? && RequiredBefore(fs, i) == index
  }

  /** Marking one field. */
  function Mark(fs: seq<Field>, words: seq<Word>, i: nat): seq<Word>
    requires |words| == 2 && i < |fs|
  {
    var index := RequiredBefore(fs, i);
    if fs[i].rule.Required? && index < MAX_REQUIRED then words[index / 32 := words[index / 32] + {index % 32}] else words
  }

  lemma {:induction false} MarkSeen(fs: seq<Field>, seen: set<nat>, words: seq<Word>, i: nat)
    requires SeenBits(fs, seen, words) && i < |fs|
    ensures SeenBits(fs, seen + {i}, Mark(fs, words, i))
  {
    hide RequiredBefore, SeenIndex;
    var index, marked := RequiredBefore(fs, i), Mark(fs, words, i);
    forall w: nat, b: nat | w < 2 ensures BitRight(fs, seen + {i}, marked[w], w, b) {
      assert BitRight(fs, seen, words[w], w, b);
      MoreSeen(fs, seen, i, 32 * w + b);
    }
  }

  lemma {:induction false} MoreSeen(fs: seq<Field>, seen: set<nat>, i: nat, index: nat)
    requires i < |fs|
    ensures SeenIndex(fs, seen + {i}, index) <==>
        SeenIndex(fs, seen, index) || (fs[i].rule.Required? && RequiredBefore(fs, i) == index)
  {
    hide RequiredBefore;
    if SeenIndex(fs, seen, index) {
      var k :| k in seen && k < |fs| && fs[k].rule.Required? && RequiredBefore(fs, k) == index;
      assert k in seen + {i};
    }
    if fs[i].rule.Required? && RequiredBefore(fs, i) == index {
      assert i in seen + {i};
    }
  }

  /** All of the first 64 required fields have been seen. */
  ghost predicate AllSeen(fs: seq<Field>, seen: set<nat>) {
    forall i: nat | i < |fs| && fs[i].rule.Required? && RequiredBefore(fs, i) < MAX_REQUIRED :: i in seen
  }

  /** The check at the end of pb_decode_noinit: whole words, then the remaining bits. */
  predicate WordsFull(words: seq<Word>, count: nat)
    requires |words| == 2 && count <= MAX_REQUIRED
  {
    && (forall i: nat | i < count / 32 :: words[i] == LowBits(32))
    && (count % 32 != 0 ==> words[count / 32] == LowBits(count % 32))
  }

  /** The check passes exactly if every required field it can count has been seen. */
  lemma {:induction false} WordsFullIff(fs: seq<Field>, seen: set<nat>, words: seq<Word>)
    requires SeenBits(fs, seen, words)
    ensures var all := RequiredBefore(fs, |fs|);
      WordsFull(words, if all > MAX_REQUIRED then MAX_REQUIRED else all) <==> AllSeen(fs, seen)
  {
    hide RequiredBefore;
    var all := RequiredBefore(fs, |fs|);
    var count := if all > MAX_REQUIRED then MAX_REQUIRED else all;
    if WordsFull(words, count) {
      forall i: nat | i < |fs| && fs[i].rule.Required? && RequiredBefore(fs, i) < MAX_REQUIRED
        ensures i in seen
      {
        FullSeen(fs, seen, words, count, i);
      }
    }
    if AllSeen(fs, seen) {
      forall w: nat | w < 2 ensures forall b: nat :: b in words[w] <==> b < 32 && 32 * w + b < count {
        forall b: nat ensures b in words[w] <==> b < 32 && 32 * w + b < count {
          assert BitRight(fs, seen, words[w], w, b);
          if b < 32 {
            SeenFull(fs, seen, 32 * w + b);
          }
        }
      }
    }
  }

  lemma {:induction false} FullSeen(fs: seq<Field>, seen: set<nat>, words: seq<Word>, count: nat, i: nat)
    requires SeenBits(fs, seen, words) && i < |fs| && fs[i].rule.Required? && RequiredBefore(fs, i) < MAX_REQUIRED
    requires count == (if RequiredBefore(fs, |fs|) > MAX_REQUIRED then MAX_REQUIRED else RequiredBefore(fs, |fs|))
    requires WordsFull(words, count)
    ensures i in seen
  {
    hide RequiredBefore;
    var index := RequiredBefore(fs, i);
    RequiredOrder(fs, i, |fs|);
    assert index < count;
    assert index % 32 in words[index / 32];
    assert BitRight(fs, seen, words[index / 32], index / 32, index % 32);
    assert SeenIndex(fs, seen, 32 * (index / 32) + index % 32);
    var k :| k in seen && k < |fs| && fs[k].rule.Required? && RequiredBefore(fs, k) == index;
    if k < i {
      RequiredOrder(fs, k, i);
    } else if i < k {
      RequiredOrder(fs, i, k);
    }
  }

  lemma {:induction false} SeenFull(fs: seq<Field>, seen: set<nat>, index: nat)
    requires AllSeen(fs, seen) && index < MAX_REQUIRED
    ensures SeenIndex(fs, seen, index) <==> index < RequiredBefore(fs, |fs|)
  {
    hide RequiredBefore;
    if index < RequiredBefore(fs, |fs|) {
      var i := RequiredAt(fs, |fs|, index);
    }
    if SeenIndex(fs, seen, index) {
      var k :| k in seen && k < |fs| && fs[k].rule.Required? && RequiredBefore(fs, k) == index;
      RequiredOrder(fs, k, |fs|);
    }
  }

  /** The required field of a given number. */
  lemma {:induction false} RequiredAt(fs: seq<Field>, n: nat, index: nat) returns (i: nat)
    requires n <= |fs| && index < RequiredBefore(fs, n)
    ensures i < n && fs[i].rule.Required? && RequiredBefore(fs, i) == index
  {
    if fs[n - 1].rule.Required? && RequiredBefore(fs, n - 1) == index {
      i := n - 1;
    } else {
      i := RequiredAt(fs, n - 1, index);
    }
  }
}
