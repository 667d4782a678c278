/** The filter block of a table (table/filter_block.cc): one filter for every 2 KB of file offsets. */
module FilterBlocks {
  import opened Basics
  import opened InternalKeys
  import opened LogFormat
  import opened BlockFormat

  /** A filter policy: what it may not do is miss a key. */
  datatype PolicyRep = PolicyRep(create: seq<UserKey> -> Bytes, mayMatch: (UserKey, Bytes) -> bool) {
    ghost predicate Ok() {
      forall keys, k | k in keys :: mayMatch(k, create(keys))
    }
  }

  type Policy = p: PolicyRep | p.Ok() witness PolicyRep((keys: seq<UserKey>) => [], (k: UserKey, f: Bytes) => true)

  const FILTER_BASE_LG: byte := 11
  const FILTER_BASE: nat := 2048

  /** GenerateFilter writes nothing for a group without keys. */
  function FilterOf(p: Policy, keys: seq<UserKey>): Bytes {
    if keys == [] then [] else p.create(keys)
  }

  function Written(p: Policy, groups: seq<seq<UserKey>>): Bytes {
    if groups == [] then [] else Written(p, groups[..|groups| - 1]) + FilterOf(p, groups[|groups| - 1])
  }

  function Offsets(p: Policy, groups: seq<seq<UserKey>>): (r: seq<nat>)
    ensures |r| == |groups|
  {
    if groups == [] then []
    else Offsets(p, groups[..|groups| - 1]) + [|Written(p, groups[..|groups| - 1])|]
  }

  lemma {:induction false} WrittenPrefix(p: Policy, groups: seq<seq<UserKey>>, i: nat)
    requires i <= |groups|
    ensures Written(p, groups[..i]) <= Written(p, groups)
    ensures i < |groups| ==> Written(p, groups[..i + 1]) == Written(p, groups[..i]) + FilterOf(p, groups[i])
    ensures i < |groups| ==> Offsets(p, groups)[i] == |Written(p, groups[..i])|
    decreases |groups|
  {
    hide FilterOf;
    if i < |groups| {
      var n := |groups| - 1;
      assert groups[..i + 1][..i] == groups[..i];
      WrittenPrefix(p, groups[..n], i);
      assert groups[..n][..i] == groups[..i];
    } else {
      assert groups[..i] == groups;
    }
  }

  /** Where the filter of group i is. */
  lemma {:induction false} FilterAt(p: Policy, groups: seq<seq<UserKey>>, i: nat)
    requires i < |groups|
    ensures var w := Written(p, groups);
      var start, limit := |Written(p, groups[..i])|, |Written(p, groups[..i + 1])|;
      && start <= limit <= |w| && w[start..limit] == FilterOf(p, groups[i])
      && Offsets(p, groups)[i] == start && (i + 1 < |groups| ==> Offsets(p, groups)[i + 1] == limit)
      && (i + 1 == |groups| ==> limit == |w|)
  {
    hide FilterOf;
    WrittenPrefix(p, groups, i);
    WrittenPrefix(p, groups, i + 1);
    var w := Written(p, groups);
    assert w[..|Written(p, groups[..i + 1])|] == Written(p, groups[..i]) + FilterOf(p, groups[i]);
    if i + 1 == |groups| {
      assert groups[..i + 1] == groups;
    }
  }

  /** The finished block. */
  function Contents(p: Policy, groups: seq<seq<UserKey>>): Bytes
    requires |Written(p, groups)| < TWO32 && All32(Offsets(p, groups))
  {
    var w := Written(p, groups);
    w + PutFixed32s(Offsets(p, groups)) + Fixed32(|w|) + [FILTER_BASE_LG]
  }

  lemma {:induction false} OffsetsFit(p: Policy, groups: seq<seq<UserKey>>)
    requires |Written(p, groups)| < TWO32
    ensures All32(Offsets(p, groups))
  {
    hide Written;
    forall i: nat | i < |groups| ensures Offsets(p, groups)[i] < TWO32 {
      FilterAt(p, groups, i);
    }
  }

  class FilterBlockBuilder {
    const policy: Policy
    /** the keys since the last filter, the filters, and where each starts */
    var keys: seq<UserKey>
    var result: Bytes
    var filterOffsets: seq<nat>
    /** the keys of each filter; the block being filled; which key went into which block */
    ghost var groups: seq<seq<UserKey>>
    ghost var blockOffset: nat
    ghost var added: set<(nat, UserKey)>

    ghost predicate Valid()
      reads this
    {
      && result == Written(policy, groups) && filterOffsets == Offsets(policy, groups)
      && |groups| == blockOffset / FILTER_BASE
      && forall e | e in added :: e.0 <= blockOffset && Placed(groups, keys, e.0, e.1)
    }

    /** All filters, those still to be made included. */
    ghost function Total(): Bytes
      reads this
    {
      Written(policy, groups + [keys])
    }

    constructor (policy: Policy)
      ensures Valid() && added == {} && blockOffset == 0 && this.policy == policy
    {
      this.policy, keys, result, filterOffsets := policy, [], [], [];
      groups, blockOffset, added := [], 0, {};
    }

    method GenerateFilter()
      requires result == Written(policy, groups) && filterOffsets == Offsets(policy, groups)
      modifies this`keys, this`result, this`filterOffsets, this`groups
      ensures groups == old(groups) + [old(keys)] && keys == [] && Total() == old(Total())
      ensures result == Written(policy, groups) && filterOffsets == Offsets(policy, groups)
    {
      ghost var more := groups + [keys];
      assert more[..|groups|] == groups;
      filterOffsets := filterOffsets + [|result|];
      if |keys| > 0 {
        result := result + policy.create(keys);
      }
      groups, keys := more, [];
      assert (more + [[]])[..|more|] == more;
    }

    /** StartBlock: filters for the offsets up to the new block. */
    method StartBlock(offset: nat)
      requires Valid() && offset >= blockOffset
      modifies this
      ensures Valid() && blockOffset == offset && added == old(added) && Total() == old(Total())
    {
      var filterIndex := offset / FILTER_BASE;
      while filterIndex > |filterOffsets|
        invariant result == Written(policy, groups) && filterOffsets == Offsets(policy, groups)
        invariant |groups| <= filterIndex && Total() == old(Total())
        invariant added == old(added) && forall e | e in added :: e.0 <= offset && Placed(groups, keys, e.0, e.1)
        decreases filterIndex - |filterOffsets|
      {
        GenerateFilter();
      }
      blockOffset := offset;
    }

    method AddKey(key: UserKey)
      requires Valid()
      modifies this`keys, this`added
      ensures Valid() && added == old(added) + {(blockOffset, key)}
    {
      keys := keys + [key];
      added := added + {(blockOffset, key)};
    }

    method Finish() returns (contents: Bytes)
      requires Valid() && |Total()| < TWO32
      modifies this`keys, this`result, this`filterOffsets, this`groups
      ensures |Written(policy, groups)| < TWO32 && All32(Offsets(policy, groups)) && contents == Contents(policy, groups)
      ensures forall e | e in added :: InGroup(groups, e.0, e.1)
      ensures |groups| <= old(|groups|) + 1
    {
      hide Written, Offsets, PutFixed32s, Fixed32;
      LessWritten(policy, groups, keys);
      if |keys| > 0 {
        GenerateFilter();
      }
      OffsetsFit(policy, groups);
      contents := PutWords(result, filterOffsets);
      contents := contents + Fixed32(|result|) + [FILTER_BASE_LG];
    }
  }

  /** The loop that appends the offset array. */
  method PutWords(result: Bytes, words: seq<nat>) returns (contents: Bytes)
    requires All32(words)
    ensures contents == result + PutFixed32s(words)
  {
    hide PutFixed32s, Fixed32;
    contents := result;
    NoWords();
    for i := 0 to |words|
      invariant All32(words[..i]) && contents == result + PutFixed32s(words[..i])
    {
      NextWord(words, i);
      contents := contents + Fixed32(words[i]);
    }
    assert words[..|words|] == words;
  }

  /** A key of the block at offset is in the filter for that offset, made already or still to be made. */
  ghost predicate Placed(groups: seq<seq<UserKey>>, keys: seq<UserKey>, offset: nat, key: UserKey) {
    var i := offset / FILTER_BASE;
    if i < |groups| then key in groups[i] else i == |groups| && key in keys
  }

  ghost predicate InGroup(groups: seq<seq<UserKey>>, offset: nat, key: UserKey) {
    offset / FILTER_BASE < |groups| && key in groups[offset / FILTER_BASE]
  }

  lemma {:induction false} LessWritten(p: Policy, groups: seq<seq<UserKey>>, keys: seq<UserKey>)
    ensures |Written(p, groups)| <= |Written(p, groups + [keys])|
  {
    WrittenPrefix(p, groups + [keys], |groups|);
    assert (groups + [keys])[..|groups|] == groups;
  }

  lemma {:induction false} NoWords()
    ensures PutFixed32s([]) == []
  {
  }

  lemma {:induction false} NextWord(vs: seq<nat>, i: nat)
    requires All32(vs) && i < |vs|
    ensures All32(vs[..i]) && All32(vs[..i + 1]) && PutFixed32s(vs[..i + 1]) == PutFixed32s(vs[..i]) + Fixed32(vs[i])
  {
    assert vs[..i + 1][..i] == vs[..i];
  }

  /** FilterBlockReader: contents, where the offset array starts, its length, and the base. */
  datatype ReaderRep = Reader(contents: Bytes, offset: nat, num: nat, baseLg: nat) {
    predicate Ok() {
      num > 0 ==> offset + 4 * num + 5 <= |contents|
    }
  }

  type Reader = r: ReaderRep | r.Ok() witness Reader([], 0, 0, 0)

  function OpenFilter(contents: Bytes): Reader {
    var n := |contents|;
    if n < 5 then Reader([], 0, 0, 0)
    else
      var lastWord := DecodeFixed32(contents[n - 5..]);
      if lastWord > n - 5 then Reader([], 0, 0, contents[n - 1])
      else Reader(contents, lastWord, (n - 5 - lastWord) / 4, contents[n - 1])
  }

  function Shift(offset: nat, lg: nat): nat {
    if lg == 0 then offset else Shift(offset / 2, lg - 1)
  }

  /** KeyMayMatch: errors are treated as potential matches. */
  function KeyMayMatch(p: Policy, r: Reader, blockOffset: nat, key: UserKey): bool {
    var index := Shift(blockOffset, r.baseLg);
    if index >= r.num then true
    else
      var start, limit := DecodeFixed32(r.contents[r.offset + 4 * index..]), DecodeFixed32(r.contents[r.offset + 4 * index + 4..]);
      if start <= limit && limit <= r.offset then p.mayMatch(key, r.contents[start..limit])
      else if start == limit then false
      else true
  }

  lemma {:induction false} ShiftIsDivision(offset: nat)
    ensures Shift(offset, 11) == offset / FILTER_BASE
  {
    var a, b, c := offset / 2 / 2 / 2, offset / 2 / 2 / 2 / 2 / 2 / 2, offset / 2 / 2 / 2 / 2 / 2 / 2 / 2 / 2 / 2;
    ShiftThree(offset, 8);
    ShiftThree(a, 5);
    ShiftThree(b, 2);
    assert Shift(c, 2) == Shift(c / 2, 1) == Shift(c / 2 / 2, 0);
  }

  lemma {:induction false} ShiftThree(x: nat, lg: nat)
    ensures Shift(x, lg + 3) == Shift(x / 2 / 2 / 2, lg)
  {
    assert Shift(x, lg + 3) == Shift(x / 2, lg + 2);
    assert Shift(x / 2, lg + 2) == Shift(x / 2 / 2, lg + 1);
  }

  lemma {:induction false} WordOf(w: Bytes, words: seq<nat>, tail: Bytes, i: nat)
    requires All32(words) && i < |words|
    ensures |PutFixed32s(words)| == 4 * |words|
    ensures DecodeFixed32((w + PutFixed32s(words) + tail)[|w| + 4 * i..]) == words[i]
  {
    hide Fixed32, DecodeFixed32, PutFixed32s;
    var ws := PutFixed32s(words);
    Fixed32sLength(words);
    Fixed32sAt(words, i);
    assert (w + ws + tail)[|w| + 4 * i..] == Fixed32(words[i]) + (ws[4 * i + 4..] + tail);
    Fixed32RoundTrip(words[i], ws[4 * i + 4..] + tail);
  }

  /** Word i of the offset array, the last one being the array's own offset. */
  lemma {:induction false} WordAt(p: Policy, groups: seq<seq<UserKey>>, i: nat)
    requires |Written(p, groups)| < TWO32 && All32(Offsets(p, groups)) && i <= |groups|
    ensures var w, c := |Written(p, groups)|, Contents(p, groups);
      && |c| == w + 4 * |groups| + 5 && w + 4 * i + 4 < |c|
      && DecodeFixed32(c[w + 4 * i..]) == if i < |groups| then Offsets(p, groups)[i] else w
  {
    hide Written, Offsets, Fixed32, DecodeFixed32, PutFixed32s;
    var w, c, os := Written(p, groups), Contents(p, groups), Offsets(p, groups);
    var tail := Fixed32(|w|) + [FILTER_BASE_LG];
    Fixed32sLength(os);
    assert c == w + PutFixed32s(os) + tail;
    if i < |groups| {
      WordOf(w, os, tail, i);
    } else {
      assert c[|w| + 4 * i..] == tail;
      Fixed32RoundTrip(|w|, [FILTER_BASE_LG]);
    }
  }

  /** A lookup asks exactly the filter of the 2 KB of file offsets that the block starts in, and takes everything for
      possible behind the last of them. */
  lemma {:induction false} AsksItsFilter(p: Policy, groups: seq<seq<UserKey>>, offset: nat, key: UserKey)
    requires |Written(p, groups)| < TWO32 && All32(Offsets(p, groups))
    ensures KeyMayMatch(p, OpenFilter(Contents(p, groups)), offset, key) <==>
            offset / 2048 >= |groups| || p.mayMatch(key, FilterOf(p, groups[offset / 2048]))
  {
    hide Written, Offsets, Fixed32, DecodeFixed32, Shift, FilterOf;
    var w, c := Written(p, groups), Contents(p, groups);
    var i := offset / 2048;
    OpenWritten(p, groups);
    ShiftIsDivision(offset);
    if i < |groups| {
      WordAt(p, groups, i);
      WordAt(p, groups, i + 1);
      FilterAt(p, groups, i);
      var start, limit := |Written(p, groups[..i])|, |Written(p, groups[..i + 1])|;
      assert c[start..limit] == w[start..limit];
    }
  }

  /** The filter never hides a key that was added for the block at that offset. */
  lemma {:induction false} NeverHides(p: Policy, groups: seq<seq<UserKey>>, offset: nat, key: UserKey)
    requires |Written(p, groups)| < TWO32 && All32(Offsets(p, groups)) && InGroup(groups, offset, key)
    ensures KeyMayMatch(p, OpenFilter(Contents(p, groups)), offset, key)
  {
    hide Written, Offsets, OpenFilter, KeyMayMatch, Contents;
    AsksItsFilter(p, groups, offset, key);
    var i := offset / 2048;
    assert p.mayMatch(key, p.create(groups[i]));
  }

  lemma {:induction false} OpenWritten(p: Policy, groups: seq<seq<UserKey>>)
    requires |Written(p, groups)| < TWO32 && All32(Offsets(p, groups))
    ensures OpenFilter(Contents(p, groups)) == Reader(Contents(p, groups), |Written(p, groups)|, |groups|, 11)
  {
    hide Written, Offsets, Fixed32, DecodeFixed32;
    WordAt(p, groups, |groups|);
  }
}
