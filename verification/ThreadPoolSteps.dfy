/** Every step of the thread pool keeps its invariant. */
module ThreadPoolSteps {
  import opened Basics
  import opened ThreadPool

  lemma {:induction false} HeadOnce<T>(q: seq<T>)
    requires Distinct(q) && q != []
    ensures q[0] !in q[1..] && Distinct(q[1..])
    ensures forall x :: x in q <==> x == q[0] || x in q[1..]
  {
    assert q == [q[0]] + q[1..];
  }

  lemma {:induction false} WithoutFacts<T>(q: seq<T>, x: T)
    ensures forall y :: y in Without(q, x) <==> y in q && y != x
    ensures Distinct(q) ==> Distinct(Without(q, x))
  {
    forall y ensures y in Without(q, x) <==> y in q && y != x {
      FilterMember(q, z => z != x, y);
    }
    if Distinct(q) {
      FilterDistinct(q, y => y != x);
    }
  }

  lemma {:induction false} AppendOnce<T>(q: seq<T>, x: T)
    requires Distinct(q) && x !in q
    ensures Distinct(q + [x])
  {
  }

  /** From s to t exactly one request has moved, to place p. */
  ghost predicate Moved(s: State, t: State, id: nat, p: Place) {
    forall i, q :: InPlace(t, i, q) <==> if i == id then q == p else InPlace(s, i, q)
  }

  ghost predicate Unmoved(s: State, t: State) {
    forall i, q :: InPlace(t, i, q) <==> InPlace(s, i, q)
  }

  /** What WorkAt says of a request depends on these parts of the state. */
  ghost predicate SameRecord(s: State, t: State, id: nat) {
    && |t.loops| == |s.loops|
    && (id in s.requests ==> id in t.requests && t.requests[id] == s.requests[id])
    && (id in t.ran <==> id in s.ran)
    && (id in s.done ==> id in t.done && t.done[id] == s.done[id])
  }

  ghost predicate SamePc(s: State, t: State, id: nat) {
    forall w: nat | w < |s.workers| && Holds(s.workers[w], id) :: w < |t.workers| && t.workers[w] == s.workers[w]
  }

  lemma {:induction false} WorkKept(s: State, t: State, id: nat, p: Place)
    requires WorkAt(s, id, p) && SameRecord(s, t, id) && SamePc(s, t, id)
    ensures WorkAt(t, id, p)
  {
  }

  lemma {:induction false} MovedPlaced(s: State, t: State, id: nat, p: Place)
    requires Placed(s) && Moved(s, t, id, p) && WorkAt(t, id, p)
    requires t.requests.Keys == s.requests.Keys + {id}
    requires forall i: nat | i != id && i in s.requests :: SameRecord(s, t, i) && SamePc(s, t, i)
    ensures Placed(t)
  {
    hide InPlace, WorkAt, SameRecord, SamePc;
    forall i: nat | i in t.requests ensures Somewhere(t, i) {
      if i == id {
        assert InPlace(t, id, p);
      } else {
        assert Somewhere(s, i);
        var q :| InPlace(s, i, q);
        assert InPlace(t, i, q);
      }
    }
    forall i, q | InPlace(t, i, q) ensures WorkAt(t, i, q) {
      if i != id {
        assert InPlace(s, i, q) && WorkAt(s, i, q);
        InRequests(s, i, q);
        WorkKept(s, t, i, q);
      }
    }
  }

  lemma {:induction false} InRequests(s: State, id: nat, p: Place)
    requires WorkAt(s, id, p)
    ensures id in s.requests && s.requests[id].loop < |s.loops|
  {
  }

  lemma {:induction false} UnmovedPlaced(s: State, t: State)
    requires Placed(s) && Unmoved(s, t) && t.requests == s.requests
    requires forall i: nat | i in s.requests :: SameRecord(s, t, i) && SamePc(s, t, i)
    ensures Placed(t)
  {
    hide InPlace, WorkAt, SameRecord, SamePc;
    forall i: nat | i in t.requests ensures Somewhere(t, i) {
      assert Somewhere(s, i);
      var q :| InPlace(s, i, q);
      assert InPlace(t, i, q);
    }
    forall i, q | InPlace(t, i, q) ensures WorkAt(t, i, q) {
      assert InPlace(s, i, q) && WorkAt(s, i, q);
      InRequests(s, i, q);
      WorkKept(s, t, i, q);
    }
  }

  /** A worker that holds nothing changes its state. */
  lemma {:induction false} IdlePlaced(s: State, step: Step)
    requires Placed(s) && Enabled(s, step) && (step.Wait? || step.Wake? || step.Return?)
    ensures Placed(Apply(s, step))
  {
    hide Placed, WorkAt;
    var t := Apply(s, step);
    assert Unmoved(s, t);
    UnmovedPlaced(s, t);
  }

  lemma {:induction false} TakeRequestPlaced(s: State, w: nat)
    requires Placed(s) && Distinct(s.wq) && w < |s.workers| && s.workers[w].AtLoop?
    requires s.wq != [] && s.wq[0].Req?
    ensures Placed(TakeHead(s, w))
  {
    hide Placed, WorkAt, Distinct;
    var t, id := TakeHead(s, w), s.wq[0].id;
    HeadOnce(s.wq);
    OnlyPlace(s, id, InWq);
    forall i, q ensures InPlace(t, i, q) <==> if i == id then q == AtWorker(w) else InPlace(s, i, q) {
      var before := InPlace(s, i, q);
    }
    TakenWork(s, t, id, w, InWq);
    MovedPlaced(s, t, id, AtWorker(w));
  }

  lemma {:induction false} OnlyPlace(s: State, id: nat, p: Place)
    requires Placed(s) && InPlace(s, id, p)
    ensures WorkAt(s, id, p) && id in s.requests
    ensures forall q :: InPlace(s, id, q) ==> q == p
  {
  }

  lemma {:induction false} TakenWork(s: State, t: State, id: nat, w: nat, p: Place)
    requires WorkAt(s, id, p) && (p == InWq || p == InPending) && w < |t.workers|
    requires t.workers[w] == Taken(id, p == InPending)
    requires t.requests == s.requests && t.ran == s.ran && t.loops == s.loops
    ensures WorkAt(t, id, AtWorker(w))
  {
  }

  lemma {:induction false} TakeTokenPlaced(s: State, w: nat)
    requires Placed(s) && Distinct(s.wq) && Distinct(s.pending) && w < |s.workers| && s.workers[w].AtLoop?
    requires s.wq != [] && s.wq[0] == Token
    ensures Placed(TakeHead(s, w))
  {
    hide Placed, WorkAt, Distinct;
    var t := TakeHead(s, w);
    HeadOnce(s.wq);
    if s.slowRunning >= Threshold(s) || s.pending == [] {
      assert Unmoved(s, t);
      UnmovedPlaced(s, t);
    } else {
      var id := s.pending[0];
      HeadOnce(s.pending);
      OnlyPlace(s, id, InPending);
      forall i, q ensures InPlace(t, i, q) <==> if i == id then q == AtWorker(w) else InPlace(s, i, q) {
        var before := InPlace(s, i, q);
      }
      TakenWork(s, t, id, w, InPending);
      MovedPlaced(s, t, id, AtWorker(w));
    }
  }

  lemma {:induction false} RunPlaced(s: State, w: nat)
    requires Placed(s) && Enabled(s, Run(w))
    ensures Placed(Apply(s, Run(w)))
  {
    hide Placed;
    var t, id := Apply(s, Run(w)), s.workers[w].id;
    OnlyPlace(s, id, AtWorker(w));
    forall i, q ensures InPlace(t, i, q) <==> if i == id then q == AtWorker(w) else InPlace(s, i, q) {
      var before := InPlace(s, i, q);
    }
    MovedPlaced(s, t, id, AtWorker(w));
  }

  lemma {:induction false} PostPlaced(s: State, w: nat)
    requires Placed(s) && Enabled(s, Post(w))
    ensures Placed(Apply(s, Post(w)))
  {
    hide Placed;
    var t, id := Apply(s, Post(w)), s.workers[w].id;
    OnlyPlace(s, id, AtWorker(w));
    forall i, q ensures InPlace(t, i, q) <==> if i == id then q == InQueue(s.requests[id].loop) else InPlace(s, i, q) {
      var before := InPlace(s, i, q);
    }
    MovedPlaced(s, t, id, InQueue(s.requests[id].loop));
  }

  lemma {:induction false} SubmitPlaced(s: State, loop: nat, id: nat, kind: Kind)
    requires Placed(s) && Enabled(s, Submit(loop, id, kind)) && id !in s.ran
    ensures Placed(Apply(s, Submit(loop, id, kind)))
  {
    hide Placed;
    var t := Apply(s, Submit(loop, id, kind));
    NowhereYet(s, id);
    var p := if kind == SlowIo then InPending else InWq;
    forall i, q ensures InPlace(t, i, q) <==> if i == id then q == p else InPlace(s, i, q) {
      var before := InPlace(s, i, q);
    }
    MovedPlaced(s, t, id, p);
  }

  lemma {:induction false} NowhereYet(s: State, id: nat)
    requires Placed(s) && id !in s.requests
    ensures forall p :: !InPlace(s, id, p)
  {
  }

  lemma {:induction false} CancelEndPlaced(s: State, loop: nat)
    requires Placed(s) && Enabled(s, CancelEnd(loop))
    ensures Placed(Apply(s, CancelEnd(loop)))
  {
    hide Placed;
    var t, id := Apply(s, CancelEnd(loop)), s.loops[loop].cancelling.value;
    OnlyPlace(s, id, InCancel(loop));
    forall i, q ensures InPlace(t, i, q) <==> if i == id then q == InQueue(loop) else InPlace(s, i, q) {
      var before := InPlace(s, i, q);
    }
    MovedPlaced(s, t, id, InQueue(loop));
  }

  lemma {:induction false} DoneNextPlaced(s: State, loop: nat)
    requires Placed(s) && Distincts(s) && Enabled(s, DoneNext(loop))
    ensures Placed(Apply(s, DoneNext(loop)))
  {
    hide Placed, Distinct;
    var t, id := Apply(s, DoneNext(loop)), s.loops[loop].draining[0];
    HeadOnce(s.loops[loop].draining);
    OnlyPlace(s, id, InDraining(loop));
    forall i, q ensures InPlace(t, i, q) <==> if i == id then q == Finished else InPlace(s, i, q) {
      var before := InPlace(s, i, q);
    }
    MovedPlaced(s, t, id, Finished);
  }

  lemma {:induction false} CancelStartPlaced(s: State, loop: nat, id: nat)
    requires Placed(s) && Enabled(s, CancelStart(loop, id)) && Cancellable(s, id)
    ensures Placed(Apply(s, CancelStart(loop, id)))
  {
    hide Placed, Without;
    var t := Apply(s, CancelStart(loop, id));
    WithoutFacts(s.wq, Req(id));
    WithoutFacts(s.pending, id);
    WithoutFacts(s.loops[loop].queue, id);
    WithoutFacts(s.loops[loop].draining, id);
    var p := if Req(id) in s.wq then InWq else if id in s.pending then InPending
             else if id in s.loops[loop].queue then InQueue(loop) else InDraining(loop);
    OnlyPlace(s, id, p);
    forall i, q ensures InPlace(t, i, q) <==> if i == id then q == InCancel(loop) else InPlace(s, i, q) {
      var before := InPlace(s, i, q);
    }
    MovedPlaced(s, t, id, InCancel(loop));
  }

  /** uv__work_done takes the whole queue of its loop. */
  lemma {:induction false} DoneStartPlaced(s: State, loop: nat)
    requires Placed(s) && Enabled(s, DoneStart(loop))
    ensures Placed(Apply(s, DoneStart(loop)))
  {
    hide WorkAt;
    var t := Apply(s, DoneStart(loop));
    forall i, p ensures InPlace(t, i, p) <==> InPlace(s, i, Before(p, loop)) && p != InQueue(loop) {
    }
    forall i: nat | i in t.requests ensures Somewhere(t, i) {
      assert Somewhere(s, i);
      var q :| InPlace(s, i, q);
      assert InPlace(t, i, if q == InQueue(loop) then InDraining(loop) else q);
    }
    forall i, p | InPlace(t, i, p) ensures WorkAt(t, i, p) {
      DrainedWork(s, t, i, p, loop);
    }
  }

  /** Where a request was before its loop's queue was taken. */
  function Before(p: Place, loop: nat): Place {
    if p == InDraining(loop) then InQueue(loop) else p
  }

  lemma {:induction false} DrainedWork(s: State, t: State, id: nat, p: Place, loop: nat)
    requires WorkAt(s, id, Before(p, loop)) && |t.loops| == |s.loops|
    requires t.requests == s.requests && t.ran == s.ran && t.done == s.done && t.workers == s.workers
    ensures WorkAt(t, id, p)
  {
  }

  lemma {:induction false} StepPlaced(s: State, step: Step)
    requires Inv(s) && Enabled(s, step)
    ensures Placed(Apply(s, step))
  {
    hide Placed, Counted, Apply, Distinct;
    match step
    case Wait(t) => IdlePlaced(s, step);
    case Wake(t) => IdlePlaced(s, step);
    case Return(t) => IdlePlaced(s, step);
    case Take(t) =>
      ApplyTake(s, t);
      if s.wq[0] == Token { TakeTokenPlaced(s, t); } else { TakeRequestPlaced(s, t); }
    case Run(t) => RunPlaced(s, t);
    case Post(t) => PostPlaced(s, t);
    case Submit(loop, id, kind) => SubmitPlaced(s, loop, id, kind);
    case CancelStart(loop, id) =>
      if Cancellable(s, id) { CancelStartPlaced(s, loop, id); } else { CancelRefused(s, loop, id); }
    case CancelEnd(loop) => CancelEndPlaced(s, loop);
    case DoneStart(loop) => DoneStartPlaced(s, loop);
    case DoneNext(loop) => DoneNextPlaced(s, loop);
  }

  lemma {:induction false} ApplyTake(s: State, t: nat)
    requires Enabled(s, Take(t))
    ensures Apply(s, Take(t)) == TakeHead(s, t) && s.wq != []
  {
  }

  lemma {:induction false} CancelRefused(s: State, loop: nat, id: nat)
    requires Enabled(s, CancelStart(loop, id)) && !Cancellable(s, id)
    ensures Apply(s, CancelStart(loop, id)) == s
  {
  }

  ghost predicate LoopDistinct(l: Loop) {
    Distinct(l.queue) && Distinct(l.draining)
  }

  lemma {:induction false} SetLoopDistincts(s: State, t: State, l: nat, loop: Loop)
    requires Distincts(s) && l < |s.loops| && t.loops == s.loops[l := loop]
    requires Distinct(t.wq) && Distinct(t.pending) && LoopDistinct(loop)
    ensures Distincts(t)
  {
    hide Distinct;
  }

  lemma {:induction false} TakeDistincts(s: State, w: nat)
    requires Distincts(s) && w < |s.workers| && s.wq != []
    ensures Distincts(TakeHead(s, w))
  {
    hide Distinct;
    HeadOnce(s.wq);
    if s.wq[0] == Token {
      AppendOnce(s.wq[1..], Token);
    }
    if s.pending != [] {
      HeadOnce(s.pending);
    }
  }

  lemma {:induction false} SubmitDistincts(s: State, loop: nat, id: nat, kind: Kind)
    requires Inv(s) && Enabled(s, Submit(loop, id, kind))
    ensures Distincts(Apply(s, Submit(loop, id, kind)))
  {
    hide Distinct, Placed, Counted;
    NowhereYet(s, id);
    assert !InPlace(s, id, InPending) && !InPlace(s, id, InWq);
    AppendOnce(s.pending, id);
    if kind == SlowIo {
      if Token !in s.wq {
        AppendOnce(s.wq, Token);
      }
    } else {
      AppendOnce(s.wq, Req(id));
    }
  }

  lemma {:induction false} PostDistincts(s: State, w: nat)
    requires Inv(s) && Enabled(s, Post(w))
    ensures Distincts(Apply(s, Post(w)))
  {
    hide Distinct, Placed, Counted;
    var id := s.workers[w].id;
    var l := s.requests[id].loop;
    OnlyPlace(s, id, AtWorker(w));
    assert !InPlace(s, id, InQueue(l));
    AppendOnce(s.loops[l].queue, id);
    SetLoopDistincts(s, Apply(s, Post(w)), l, s.loops[l].(queue := s.loops[l].queue + [id]));
  }

  lemma {:induction false} CancelEndDistincts(s: State, loop: nat)
    requires Inv(s) && Enabled(s, CancelEnd(loop))
    ensures Distincts(Apply(s, CancelEnd(loop)))
  {
    hide Distinct, Placed, Counted;
    var l := s.loops[loop];
    var id := l.cancelling.value;
    OnlyPlace(s, id, InCancel(loop));
    assert !InPlace(s, id, InQueue(loop));
    AppendOnce(l.queue, id);
    SetLoopDistincts(s, Apply(s, CancelEnd(loop)), loop, Loop(l.queue + [id], l.draining, None));
  }

  lemma {:induction false} CancelStartDistincts(s: State, loop: nat, id: nat)
    requires Distincts(s) && Enabled(s, CancelStart(loop, id))
    ensures Distincts(Apply(s, CancelStart(loop, id)))
  {
    hide Distinct, Without;
    if Cancellable(s, id) {
      var l := s.loops[loop];
      WithoutFacts(s.wq, Req(id));
      WithoutFacts(s.pending, id);
      WithoutFacts(l.queue, id);
      WithoutFacts(l.draining, id);
      SetLoopDistincts(s, Apply(s, CancelStart(loop, id)), loop, Loop(Without(l.queue, id), Without(l.draining, id), Some(id)));
    }
  }

  lemma {:induction false} DoneDistincts(s: State, step: Step)
    requires Distincts(s) && Enabled(s, step) && (step.DoneStart? || step.DoneNext?)
    ensures Distincts(Apply(s, step))
  {
    hide Distinct;
    var l := s.loops[step.loop];
    if step.DoneStart? {
      NothingTwice<nat>();
      SetLoopDistincts(s, Apply(s, step), step.loop, l.(queue := [], draining := l.queue));
    } else {
      HeadOnce(l.draining);
      SetLoopDistincts(s, Apply(s, step), step.loop, l.(draining := l.draining[1..]));
    }
  }

  lemma {:induction false} NothingTwice<T>()
    ensures Distinct<T>([])
  {
  }

  lemma {:induction false} StepDistincts(s: State, step: Step)
    requires Inv(s) && Enabled(s, step)
    ensures Distincts(Apply(s, step))
  {
    hide Placed, Counted, Distinct;
    match step
    case Wait(t) =>
    case Wake(t) =>
    case Return(t) =>
    case Run(t) =>
    case Take(t) => TakeDistincts(s, t);
    case Post(t) => PostDistincts(s, t);
    case Submit(loop, id, kind) => SubmitDistincts(s, loop, id, kind);
    case CancelStart(loop, id) => CancelStartDistincts(s, loop, id);
    case CancelEnd(loop) => CancelEndDistincts(s, loop);
    case DoneStart(loop) => DoneDistincts(s, step);
    case DoneNext(loop) => DoneDistincts(s, step);
  }

  lemma {:induction false} CountUpdate(ws: seq<Pc>, t: nat, pc: Pc, p: Pc -> bool)
    requires t < |ws|
    ensures Count(ws[t := pc], p) == Count(ws, p) - (if p(ws[t]) then 1 else 0) + if p(pc) then 1 else 0
  {
    var n := |ws| - 1;
    if t < n {
      CountUpdate(ws[..n], t, pc, p);
      assert ws[t := pc][..n] == ws[..n][t := pc];
    } else {
      assert ws[t := pc][..n] == ws[..n];
    }
  }

  lemma {:induction false} WorkerCounted(s: State, step: Step)
    requires Counted(s) && Enabled(s, step)
    requires step.Wait? || step.Wake? || step.Return? || step.Run? || step.Post?
    ensures Counted(Apply(s, step))
  {
    hide Count;
    var t := Apply(s, step);
    CountUpdate(s.workers, step.t, t.workers[step.t], IsSlow);
    CountUpdate(s.workers, step.t, t.workers[step.t], (pc: Pc) => pc.Waiting?);
  }

  lemma {:induction false} TakeCounted(s: State, w: nat)
    requires Counted(s) && Distinct(s.wq) && Enabled(s, Take(w))
    ensures Counted(TakeHead(s, w))
  {
    hide Count, Distinct;
    var t := TakeHead(s, w);
    HeadOnce(s.wq);
    CountUpdate(s.workers, w, t.workers[w], IsSlow);
    CountUpdate(s.workers, w, t.workers[w], (pc: Pc) => pc.Waiting?);
    assert s.workers[w := s.workers[w]] == s.workers;
  }

  lemma {:induction false} QueueCounted(s: State, step: Step)
    requires Counted(s) && Enabled(s, step)
    requires step.Submit? || step.CancelStart? || step.CancelEnd? || step.DoneStart? || step.DoneNext?
    ensures Counted(Apply(s, step))
  {
    hide Count, Without;
    if step.CancelStart? {
      WithoutFacts(s.wq, Req(step.id));
      WithoutFacts(s.pending, step.id);
      assert s.pending == [] ==> step.id !in s.pending;
      WithoutNothing(s.pending, step.id);
    }
  }

  lemma {:induction false} WithoutNothing<T>(q: seq<T>, x: T)
    ensures q == [] ==> Without(q, x) == []
  {
  }

  lemma {:induction false} StepCounted(s: State, step: Step)
    requires Inv(s) && Enabled(s, step)
    ensures Counted(Apply(s, step))
  {
    hide Placed, Counted, Distinct;
    match step
    case Take(t) => TakeCounted(s, t);
    case Wait(t) => WorkerCounted(s, step);
    case Wake(t) => WorkerCounted(s, step);
    case Return(t) => WorkerCounted(s, step);
    case Run(t) => WorkerCounted(s, step);
    case Post(t) => WorkerCounted(s, step);
    case Submit(loop, id, kind) => QueueCounted(s, step);
    case CancelStart(loop, id) => QueueCounted(s, step);
    case CancelEnd(loop) => QueueCounted(s, step);
    case DoneStart(loop) => QueueCounted(s, step);
    case DoneNext(loop) => QueueCounted(s, step);
  }

  /** Every step keeps the invariant. */
  lemma {:induction false} StepKeepsInv(s: State, step: Step)
    requires Inv(s) && Enabled(s, step)
    ensures Inv(Apply(s, step))
  {
    StepPlaced(s, step);
    StepDistincts(s, step);
    StepCounted(s, step);
    RanKnown(s, step);
  }

  lemma {:induction false} RanKnown(s: State, step: Step)
    requires Inv(s) && Enabled(s, step)
    ensures Apply(s, step).ran <= Apply(s, step).requests.Keys
  {
    hide Placed, Distincts, Counted;
    if step.Run? {
      OnlyPlace(s, s.workers[step.t].id, AtWorker(step.t));
    }
  }
}
