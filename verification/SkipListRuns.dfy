/** Readers and the writer of a skip list, interleaved in any way (db/skiplist.h). */
module SkipListRuns {
  import opened SkipLists

  /** Whose turn it is: the writer's, or that of the k-th search. */
  datatype Turn = Write | Read(k: nat)

  lemma {:induction false} BehindGrown(head: Node, was: seq<Node>, now: seq<Node>, target: Key, x: Node)
    requires Within(was, now) && Behind(head, was, target, x)
    ensures Behind(head, now, target, x)
  {
  }

  class Writer {
    const list: SkipList
    const todo: seq<(Key, nat)>
    var next: nat
    var current: Insertion?

    ghost predicate Ok()
      reads this, list, list.nodes`next, current, if current == null then {} else {current.x}
    {
      && list.Valid() && next <= |todo|
      && (forall i | 0 <= i < |todo| :: 1 <= todo[i].1 <= MAX_HEIGHT)
      && (current != null ==> current.list == list && current.Ok())
    }

    constructor (list: SkipList, todo: seq<(Key, nat)>)
      requires list.Valid() && forall i | 0 <= i < |todo| :: 1 <= todo[i].1 <= MAX_HEIGHT
      ensures Ok() && this.list == list && this.todo == todo
    {
      this.list, this.todo, next, current := list, todo, 0, null;
    }

    /** The writer's next step: one pointer store, or the start of the next insertion. */
    method Step()
      requires Ok()
      modifies this, list, list.nodes`next, current, if current == null then {} else {current.x}
      ensures Ok() && Grown(old(list.lists), list.lists)
      ensures current == null || current == old(current) || fresh(current)
      ensures current != null && current != old(current) ==> fresh(current.x)
      ensures list.nodes >= old(list.nodes) && fresh(list.nodes - old(list.nodes))
    {
      hide IsSuccessor;
      if current != null {
        if current.i == |current.prev| {
          current := null;
        } else if !current.half {
          current.Prepare();
        } else {
          current.Publish();
        }
      } else if next < |todo| {
        var key, height := todo[next].0, todo[next].1;
        var known := Contains(list, key);
        if !known {
          current := StartInsert(list, key, height);
        }
        next := next + 1;
      }
    }
  }

  ghost predicate Reading(searches: seq<Search>, list: SkipList)
    reads searches, list, list.nodes`next
  {
    && (forall i, j | 0 <= i < j < |searches| :: searches[i] != searches[j])
    && (forall k | 0 <= k < |searches| :: searches[k].list == list && searches[k].Ok())
  }

  /** One pointer store of the writer or one pointer load of a reader. */
  method TakeTurn(writer: Writer, searches: seq<Search>, turn: Turn)
    requires writer.Ok() && Reading(searches, writer.list)
    modifies writer, writer.list, writer.list.nodes`next, searches
    modifies writer.current, if writer.current == null then {} else {writer.current.x}
    ensures writer.Ok() && Reading(searches, writer.list) && Within(old(writer.list.lists[0]), writer.list.lists[0])
    ensures writer.list.nodes >= old(writer.list.nodes) && fresh(writer.list.nodes - old(writer.list.nodes))
    ensures writer.current == null || writer.current == old(writer.current) || (fresh(writer.current) && fresh(writer.current.x))
    ensures forall k | 0 <= k < |searches| ::
        if old(searches[k].finished) then searches[k].finished && searches[k].result == old(searches[k].result)
        else searches[k].finished ==> turn == Read(k) && IsSuccessor(old(writer.list.lists[0]), searches[k].target, searches[k].result)
  {
    hide IsSuccessor, LevelOk, Behind, Within;
    WithinItself(writer.list.lists[0]);
    match turn
    case Write =>
      ghost var was := writer.list.lists;
      writer.Step();
      forall k | 0 <= k < |searches| ensures searches[k].Ok() {
        assert old(searches[k].Ok());
        GrownAt(was, writer.list.lists, searches[k].level);
        BehindGrown(writer.list.head, was[searches[k].level], writer.list.lists[searches[k].level], searches[k].target, searches[k].x);
      }
      GrownAt(was, writer.list.lists, 0);
    case Read(k) =>
      if k < |searches| && !searches[k].finished {
        searches[k].Step();
      }
  }

  lemma {:induction false} GrownAt(was: seq<seq<Node>>, now: seq<seq<Node>>, l: nat)
    requires Grown(was, now) && l < |was|
    ensures Within(was[l], now[l])
  {
  }

  /** Any schedule of the writer's pointer stores and the readers' pointer loads: each search that
      ends returns the true successor of its target at the moment of its last load. */
  method Interleave(writer: Writer, searches: seq<Search>, schedule: seq<Turn>)
    returns (ghost history: seq<seq<Node>>, ghost ended: map<nat, nat>)
    requires writer.Ok() && writer.current == null && Reading(searches, writer.list)
    requires forall k | 0 <= k < |searches| :: !searches[k].finished
    modifies writer, writer.list, writer.list.nodes`next, searches
    ensures writer.Ok() && Reading(searches, writer.list)
    ensures |history| == |schedule| + 1 && history[0] == old(writer.list.lists[0]) && history[|schedule|] == writer.list.lists[0]
    ensures forall t | 0 <= t < |schedule| :: Within(history[t], history[t + 1])
    ensures forall k: nat | k < |searches| && searches[k].finished ::
        k in ended && EndedRight(history, schedule, ended[k], k, searches[k].target, searches[k].result)
  {
    hide IsSuccessor, LevelOk, Behind, Within, Reading, EndedRight;
    ghost var nodes0 := writer.list.nodes;
    history, ended := [writer.list.lists[0]], map[];
    for t := 0 to |schedule|
      invariant writer.Ok() && Reading(searches, writer.list)
      invariant writer.list.nodes >= nodes0 && fresh(writer.list.nodes - nodes0)
      invariant writer.current != null ==> fresh(writer.current) && fresh(writer.current.x)
      invariant |history| == t + 1 && history[0] == old(writer.list.lists[0]) && history[t] == writer.list.lists[0]
      invariant forall i | 0 <= i < t :: Within(history[i], history[i + 1])
      invariant forall k: nat | k < |searches| :: searches[k].finished <==> k in ended
      invariant forall k: nat | k < |searches| && searches[k].finished ::
          k in ended && EndedRight(history, schedule, ended[k], k, searches[k].target, searches[k].result)
    {
      TakeTurn(writer, searches, schedule[t]);
      ghost var before, done := history, ended;
      history := history + [writer.list.lists[0]];
      if schedule[t].Read? && schedule[t].k < |searches| && searches[schedule[t].k].finished && schedule[t].k !in ended {
        ended := ended[schedule[t].k := t];
      }
      forall k: nat | k < |searches| && searches[k].finished
        ensures EndedRight(history, schedule, ended[k], k, searches[k].target, searches[k].result)
      {
        if k in done {
          EndedEarlier(before, history, schedule, done[k], k, searches[k].target, searches[k].result);
        } else {
          EndedNow(history, schedule, t, k, searches[k].target, searches[k].result);
        }
      }
    }
  }

  /** The k-th search ended on turn t, with the right answer for level 0 as it then was. */
  ghost predicate EndedRight(history: seq<seq<Node>>, schedule: seq<Turn>, t: nat, k: nat, target: Key, result: Node?) {
    t < |schedule| && t < |history| && schedule[t] == Read(k) && IsSuccessor(history[t], target, result)
  }

  lemma {:induction false} EndedEarlier(was: seq<seq<Node>>, history: seq<seq<Node>>, schedule: seq<Turn>, t: nat, k: nat, target: Key, result: Node?)
    requires EndedRight(was, schedule, t, k, target, result) && was <= history
    ensures EndedRight(history, schedule, t, k, target, result)
  {
  }

  lemma {:induction false} EndedNow(history: seq<seq<Node>>, schedule: seq<Turn>, t: nat, k: nat, target: Key, result: Node?)
    requires t < |schedule| && t < |history| && schedule[t] == Read(k) && IsSuccessor(history[t], target, result)
    ensures EndedRight(history, schedule, t, k, target, result)
  {
  }

  lemma {:induction false} WithinItself(list: seq<Node>)
    ensures Within(list, list)
  {
  }
}
