/** The order in which the thread pool serves its requests: first come, first served. */
module ThreadPoolOrder {
  import opened Basics
  import opened ThreadPool
  import opened ThreadPoolSteps
  import opened ThreadPoolSafety

  /** Wherever x and y stand in q, x is in front of y. */
  ghost predicate InOrder<T>(q: seq<T>, x: T, y: T) {
    forall i, j | 0 <= i < |q| && 0 <= j < |q| && q[i] == x && q[j] == y :: i < j
  }

  lemma {:induction false} AppendInOrder<T>(q: seq<T>, x: T, y: T, z: T)
    requires InOrder(q, x, y) && z != x
    ensures InOrder(q + [z], x, y)
  {
  }

  lemma {:induction false} TailInOrder<T>(q: seq<T>, x: T, y: T)
    requires InOrder(q, x, y) && q != []
    ensures InOrder(q[1..], x, y)
    ensures x in q[1..] ==> q[0] != y
  {
    var rest := q[1..];
    forall i, j | 0 <= i < |rest| && 0 <= j < |rest| && rest[i] == x && rest[j] == y
      ensures i < j
    {
      assert q[i + 1] == x && q[j + 1] == y;
    }
    if x in rest {
      var i :| 0 <= i < |rest| && rest[i] == x;
      assert q[i + 1] == x;
    }
  }

  lemma {:induction false} FilterInOrder<T>(q: seq<T>, p: T -> bool, x: T, y: T)
    requires InOrder(q, x, y)
    ensures InOrder(Filter(q, p), x, y)
  {
    if q != [] {
      var init, last := q[..|q| - 1], q[|q| - 1];
      assert forall i | 0 <= i < |init| :: init[i] == q[i];
      FilterInOrder(init, p, x, y);
      FilterMember(init, p, y);
      if last == x {
        assert y !in init;
      }
    }
  }

  lemma {:induction false} WithoutInOrder<T>(q: seq<T>, z: T, x: T, y: T)
    requires InOrder(q, x, y)
    ensures InOrder(Without(q, z), x, y)
  {
    FilterInOrder(q, w => w != z, x, y);
  }

  // ---- Work in the two queues of the pool ----

  ghost predicate NotStarted(s: State, id: nat) {
    id !in s.ran && forall t | 0 <= t < |s.workers| :: !Holds(s.workers[t], id)
  }

  /** b waits behind a in the common queue, or is out of the way. */
  ghost predicate BehindCommon(s: State, a: nat, b: nat) {
    && a in s.requests && b in s.requests && s.requests[b].kind != SlowIo
    && InOrder(s.wq, Req(a), Req(b)) && (Req(a) in s.wq ==> NotStarted(s, b))
  }

  /** b waits behind a in the queue of slow work, or is out of the way. */
  ghost predicate BehindSlow(s: State, a: nat, b: nat) {
    && a in s.requests && b in s.requests && s.requests[b].kind == SlowIo
    && InOrder(s.pending, a, b) && (a in s.pending ==> NotStarted(s, b))
  }

  lemma {:induction false} KindKept(s: State, step: Step, id: nat)
    requires Enabled(s, step) && id in s.requests
    ensures id in Apply(s, step).requests && Apply(s, step).requests[id].kind == s.requests[id].kind
    ensures Apply(s, step).requests[id].loop == s.requests[id].loop
  {
    hide NothingToRun, Cancellable, Without;
  }

  lemma {:induction false} CommonOrderKept(s: State, step: Step, a: nat, b: nat)
    requires Enabled(s, step) && a in s.requests && InOrder(s.wq, Req(a), Req(b))
    ensures InOrder(Apply(s, step).wq, Req(a), Req(b))
    ensures Req(a) in Apply(s, step).wq ==> Req(a) in s.wq
  {
    hide NothingToRun, Cancellable, Without, InOrder;
    match step
    case Take(t) =>
      EmptyIsNothing(s);
      TailInOrder(s.wq, Req(a), Req(b));
      AppendInOrder(s.wq[1..], Req(a), Req(b), Token);
      assert s.wq == [s.wq[0]] + s.wq[1..];
    case Submit(_, id, _) =>
      AppendInOrder(s.wq, Req(a), Req(b), Req(id));
      AppendInOrder(s.wq, Req(a), Req(b), Token);
    case CancelStart(_, id) =>
      WithoutInOrder(s.wq, Req(id), Req(a), Req(b));
      WithoutFacts(s.wq, Req(id));
    case _ =>
  }

  lemma {:induction false} SlowOrderKept(s: State, step: Step, a: nat, b: nat)
    requires Enabled(s, step) && a in s.requests && InOrder(s.pending, a, b)
    ensures InOrder(Apply(s, step).pending, a, b)
    ensures a in Apply(s, step).pending ==> a in s.pending
  {
    hide NothingToRun, Cancellable, Without, InOrder;
    match step
    case Take(t) =>
      EmptyIsNothing(s);
      if s.pending != [] {
        TailInOrder(s.pending, a, b);
        assert s.pending == [s.pending[0]] + s.pending[1..];
      }
    case Submit(_, id, _) =>
      AppendInOrder(s.pending, a, b, id);
    case CancelStart(_, id) =>
      WithoutInOrder(s.pending, id, a, b);
      WithoutFacts(s.pending, id);
    case _ =>
  }

  /** The one step that starts a request takes it from the head of one of the queues. */
  lemma {:induction false} StartsAtHead(s: State, step: Step, b: nat)
    requires Enabled(s, step) && NotStarted(s, b) && !NotStarted(Apply(s, step), b)
    ensures step.Take? && s.wq != []
    ensures s.wq[0] == Req(b) || (s.wq[0] == Token && s.pending != [] && s.pending[0] == b
                                  && Apply(s, step).pending == s.pending[1..])
    ensures s.wq[0] == Req(b) ==> Apply(s, step).wq == s.wq[1..]
  {
    hide NothingToRun, Cancellable, Without;
    EmptyIsNothing(s);
  }

  lemma {:induction false} StepKeepsBehindCommon(s: State, step: Step, a: nat, b: nat)
    requires Inv(s) && Enabled(s, step) && BehindCommon(s, a, b)
    ensures BehindCommon(Apply(s, step), a, b)
  {
    hide Inv, Enabled, Apply, InOrder, NotStarted;
    KindKept(s, step, a);
    KindKept(s, step, b);
    CommonOrderKept(s, step, a, b);
    if NotStarted(s, b) && !NotStarted(Apply(s, step), b) && Req(a) in Apply(s, step).wq {
      StartsAtHead(s, step, b);
      TailInOrder(s.wq, Req(a), Req(b));
      SlowIsPending(s, b);
    }
  }

  lemma {:induction false} SlowIsPending(s: State, id: nat)
    requires Inv(s)
    ensures id in s.pending ==> id in s.requests && s.requests[id].kind == SlowIo
    ensures Req(id) in s.wq ==> id in s.requests && s.requests[id].kind != SlowIo
  {
    if id in s.pending {
      assert InPlace(s, id, InPending);
      OnlyPlace(s, id, InPending);
    }
    if Req(id) in s.wq {
      assert InPlace(s, id, InWq);
      OnlyPlace(s, id, InWq);
    }
  }

  lemma {:induction false} StepKeepsBehindSlow(s: State, step: Step, a: nat, b: nat)
    requires Inv(s) && Enabled(s, step) && BehindSlow(s, a, b)
    ensures BehindSlow(Apply(s, step), a, b)
  {
    hide Inv, Enabled, Apply, InOrder, NotStarted;
    KindKept(s, step, a);
    KindKept(s, step, b);
    SlowOrderKept(s, step, a, b);
    if NotStarted(s, b) && !NotStarted(Apply(s, step), b) && a in Apply(s, step).pending {
      StartsAtHead(s, step, b);
      SlowIsPending(s, b);
      if s.pending != [] {
        TailInOrder(s.pending, a, b);
      }
    }
  }

  lemma {:induction false} NewIsNotStarted(s: State, step: Step)
    requires Inv(s) && Enabled(s, step) && step.Submit?
    ensures NotStarted(Apply(s, step), step.id)
  {
    NowhereYet(s, step.id);
    forall t | 0 <= t < |s.workers|
      ensures !Holds(s.workers[t], step.id)
    {
      assert !InPlace(s, step.id, AtWorker(t));
    }
  }

  lemma {:induction false} SubmittedBehind(s: State, loop: nat, a: nat, b: nat, kind: Kind)
    requires Inv(s) && Enabled(s, Submit(loop, b, kind))
    ensures kind != SlowIo && Req(a) in s.wq ==> BehindCommon(Apply(s, Submit(loop, b, kind)), a, b)
    ensures kind == SlowIo && a in s.pending ==> BehindSlow(Apply(s, Submit(loop, b, kind)), a, b)
  {
    hide Inv, NotStarted;
    NewIsNotStarted(s, Submit(loop, b, kind));
    SlowIsPending(s, a);
    NotQueuedYet(s, b);
  }

  lemma {:induction false} NotQueuedYet(s: State, id: nat)
    requires Inv(s) && id !in s.requests
    ensures Req(id) !in s.wq && id !in s.pending
  {
    NowhereYet(s, id);
    assert !InPlace(s, id, InPending) && !InPlace(s, id, InWq);
  }

  /** Common work is taken in the order in which it was submitted: while a request is still queued, no
      worker has got to one that was submitted after it. */
  lemma {:induction false} CommonWorkInOrder(run: seq<State>, i: nat, j: nat, loop: nat, a: nat, b: nat, kind: Kind)
    requires IsRun(run) && i < j < |run| && kind != SlowIo
    requires Enabled(run[i], Submit(loop, b, kind)) && run[i + 1] == Apply(run[i], Submit(loop, b, kind))
    requires Req(a) in run[i].wq && Req(a) in run[j].wq
    ensures b !in run[j].ran && forall t | 0 <= t < |run[j].workers| :: !Holds(run[j].workers[t], b)
  {
    hide Inv, Enabled, Apply, Initial, InOrder;
    RunKeepsInv(run, i);
    SubmittedBehind(run[i], loop, a, b, kind);
    CommonRun(run, i + 1, j, a, b);
  }

  lemma {:induction false} CommonRun(run: seq<State>, i: nat, j: nat, a: nat, b: nat)
    requires IsRun(run) && i <= j < |run| && BehindCommon(run[i], a, b)
    ensures BehindCommon(run[j], a, b)
    decreases j
  {
    hide Inv, Enabled, Apply, Initial, BehindCommon;
    if i < j {
      CommonRun(run, i, j - 1, a, b);
      RunKeepsInv(run, j - 1);
      assert NextState(run[j - 1], run[j]);
      var step :| Enabled(run[j - 1], step) && run[j] == Apply(run[j - 1], step);
      StepKeepsBehindCommon(run[j - 1], step, a, b);
    }
  }

  /** The same for slow work. */
  lemma {:induction false} SlowWorkInOrder(run: seq<State>, i: nat, j: nat, loop: nat, a: nat, b: nat)
    requires IsRun(run) && i < j < |run|
    requires Enabled(run[i], Submit(loop, b, SlowIo)) && run[i + 1] == Apply(run[i], Submit(loop, b, SlowIo))
    requires a in run[i].pending && a in run[j].pending
    ensures b !in run[j].ran && forall t | 0 <= t < |run[j].workers| :: !Holds(run[j].workers[t], b)
  {
    hide Inv, Enabled, Apply, Initial, InOrder;
    RunKeepsInv(run, i);
    SubmittedBehind(run[i], loop, a, b, SlowIo);
    SlowRun(run, i + 1, j, a, b);
  }

  lemma {:induction false} SlowRun(run: seq<State>, i: nat, j: nat, a: nat, b: nat)
    requires IsRun(run) && i <= j < |run| && BehindSlow(run[i], a, b)
    ensures BehindSlow(run[j], a, b)
    decreases j
  {
    hide Inv, Enabled, Apply, Initial, BehindSlow;
    if i < j {
      SlowRun(run, i, j - 1, a, b);
      RunKeepsInv(run, j - 1);
      assert NextState(run[j - 1], run[j]);
      var step :| Enabled(run[j - 1], step) && run[j] == Apply(run[j - 1], step);
      StepKeepsBehindSlow(run[j - 1], step, a, b);
    }
  }

  // ---- Done callbacks ----

  /** What waits for its done callback on a loop. */
  function Line(l: Loop): seq<nat> {
    l.draining + l.queue
  }

  /** a has had its done callback, or waits for it in front of b. */
  ghost predicate Ahead(s: State, l: nat, a: nat, b: nat) {
    && l < |s.loops| && b in s.requests && s.requests[b].loop == l
    && (a in s.done || (a in Line(s.loops[l]) && b !in s.done && InOrder(Line(s.loops[l]), a, b)))
  }

  lemma {:induction false} FilterConcat<T>(a: seq<T>, b: seq<T>, p: T -> bool)
    ensures Filter(a + b, p) == Filter(a, p) + Filter(b, p)
  {
    if b == [] {
      assert a + b == a;
    } else {
      var init, last := b[..|b| - 1], b[|b| - 1];
      FilterConcat(a, init, p);
      assert (a + b)[..|a + b| - 1] == a + init;
    }
  }

  lemma {:induction false} WithoutConcat<T>(a: seq<T>, b: seq<T>, x: T)
    ensures Without(a + b, x) == Without(a, x) + Without(b, x)
  {
    FilterConcat(a, b, y => y != x);
  }

  lemma {:induction false} LineWithout(l: Loop, id: nat, c: Option<nat>)
    ensures Line(Loop(Without(l.queue, id), Without(l.draining, id), c)) == Without(Line(l), id)
  {
    hide Without;
    WithoutConcat(l.draining, l.queue, id);
  }

  /** How one step changes the line of a loop. */
  lemma {:induction false} LineStep(s: State, step: Step, l: nat)
    requires Inv(s) && Enabled(s, step) && l < |s.loops|
    ensures var t := Apply(s, step); l < |t.loops| && var q, r := Line(s.loops[l]), Line(t.loops[l]);
      || (r == q && if step.DoneNext? then step.loop != l else t.done == s.done)
      || (t.done == s.done && step.CancelStart? && r == Without(q, step.id) && t.loops[l].cancelling == Some(step.id))
      || (t.done == s.done && !step.DoneNext? && exists id :: id !in q && r == q + [id])
      || (step.DoneNext? && step.loop == l && q != [] && r == q[1..] && s.loops[l].draining[0] == q[0])
  {
    hide Counted, Distincts, NothingToRun, Without, InPlace, WorkAt, Line;
    match step
    case Post(w) => PostLine(s, w, l);
    case CancelEnd(loop) => CancelEndLine(s, loop, l);
    case CancelStart(loop, id) =>
      if Cancellable(s, id) {
        LineWithout(s.loops[loop], id, Some(id));
      }
    case DoneStart(loop) => DoneLine(s, loop);
    case DoneNext(loop) => NextLine(s.loops[loop]);
    case _ =>
  }

  lemma {:induction false} PostLine(s: State, w: nat, l: nat)
    requires Inv(s) && Enabled(s, Post(w)) && l < |s.loops|
    ensures var t, id := Apply(s, Post(w)), s.workers[w].id;
      t.done == s.done && l < |t.loops| && id !in Line(s.loops[l])
      && Line(t.loops[l]) == if s.requests[id].loop == l then Line(s.loops[l]) + [id] else Line(s.loops[l])
  {
    hide Counted, Distincts;
    var id := s.workers[w].id;
    OnlyPlace(s, id, AtWorker(w));
    assert !InPlace(s, id, InQueue(l)) && !InPlace(s, id, InDraining(l));
  }

  lemma {:induction false} CancelEndLine(s: State, loop: nat, l: nat)
    requires Inv(s) && Enabled(s, CancelEnd(loop)) && l < |s.loops|
    ensures var t, id := Apply(s, CancelEnd(loop)), s.loops[loop].cancelling.value;
      t.done == s.done && l < |t.loops| && id !in Line(s.loops[l])
      && Line(t.loops[l]) == if loop == l then Line(s.loops[l]) + [id] else Line(s.loops[l])
  {
    hide Counted, Distincts;
    var id := s.loops[loop].cancelling.value;
    OnlyPlace(s, id, InCancel(loop));
    assert !InPlace(s, id, InQueue(l)) && !InPlace(s, id, InDraining(l));
  }

  lemma {:induction false} DoneLine(s: State, loop: nat)
    requires Enabled(s, DoneStart(loop))
    ensures var l := s.loops[loop]; Line(l.(queue := [], draining := l.queue)) == Line(l)
  {
  }

  lemma {:induction false} NextLine(l: Loop)
    requires l.draining != []
    ensures Line(l) != [] && Line(l)[0] == l.draining[0] && Line(l.(draining := l.draining[1..])) == Line(l)[1..]
  {
  }

  lemma {:induction false} StepKeepsAhead(s: State, step: Step, l: nat, a: nat, b: nat)
    requires Inv(s) && Enabled(s, step) && Ahead(s, l, a, b)
    requires l < |Apply(s, step).loops| && Apply(s, step).loops[l].cancelling != Some(a)
    ensures Ahead(Apply(s, step), l, a, b)
  {
    hide Inv, Enabled, Apply, InOrder, Without, Line;
    var t := Apply(s, step);
    KindKept(s, step, b);
    if a in s.done {
      StepKeepsDone(s, step, a);
    } else {
      var q, r := Line(s.loops[l]), Line(t.loops[l]);
      LineStep(s, step, l);
      if step.DoneNext? {
        DoneNextDone(s, step.loop, b);
        if step.loop == l {
          TailInOrder(q, a, b);
          assert q == [q[0]] + q[1..];
        }
      } else if r != q {
        LineKept(s, step, l, a, b);
      }
    }
  }

  lemma {:induction false} LineKept(s: State, step: Step, l: nat, a: nat, b: nat)
    requires Inv(s) && Enabled(s, step) && l < |s.loops| && l < |Apply(s, step).loops| && !step.DoneNext?
    requires Apply(s, step).loops[l].cancelling != Some(a)
    requires a in Line(s.loops[l]) && InOrder(Line(s.loops[l]), a, b)
    ensures a in Line(Apply(s, step).loops[l]) && InOrder(Line(Apply(s, step).loops[l]), a, b)
    ensures Apply(s, step).done == s.done
  {
    hide Inv, Enabled, Apply, InOrder, Without, Line;
    LineStep(s, step, l);
    var q, r := Line(s.loops[l]), Line(Apply(s, step).loops[l]);
    if step.CancelStart? {
      WithoutInOrder(q, step.id, a, b);
      WithoutFacts(q, step.id);
    }
    if r != q && exists id :: id !in q && r == q + [id] {
      var id :| id !in q && r == q + [id];
      AppendInOrder(q, a, b, id);
    }
  }

  lemma {:induction false} DoneNextDone(s: State, loop: nat, b: nat)
    requires Inv(s) && Enabled(s, DoneNext(loop))
    ensures var t, id := Apply(s, DoneNext(loop)), s.loops[loop].draining[0];
      && (forall i :: i in t.done <==> i in s.done || i == id)
      && id in s.requests && s.requests[id].loop == loop
  {
    OnlyPlace(s, s.loops[loop].draining[0], InDraining(loop));
  }

  lemma {:induction false} AheadRun(run: seq<State>, i: nat, j: nat, l: nat, a: nat, b: nat)
    requires IsRun(run) && i <= j < |run| && Ahead(run[i], l, a, b)
    requires forall k | i < k <= j :: l < |run[k].loops| && run[k].loops[l].cancelling != Some(a)
    ensures Ahead(run[j], l, a, b)
    decreases j
  {
    hide Inv, Enabled, Apply, Initial, Ahead;
    if i < j {
      AheadRun(run, i, j - 1, l, a, b);
      RunKeepsInv(run, j - 1);
      assert NextState(run[j - 1], run[j]);
      var step :| Enabled(run[j - 1], step) && run[j] == Apply(run[j - 1], step);
      StepKeepsAhead(run[j - 1], step, l, a, b);
    }
  }

  /** a is put on the queue of a loop before b: a is there, or done, when b is put there. */
  lemma {:induction false} PutAhead(s: State, step: Step, l: nat, a: nat, b: nat)
    requires Inv(s) && Enabled(s, step) && Puts(s, step, l, b)
    requires a in s.done || (l < |s.loops| && (a in s.loops[l].draining || a in s.loops[l].queue))
    ensures Ahead(Apply(s, step), l, a, b)
  {
    hide Inv, Enabled, InOrder, Apply, Line;
    PutLine(s, step, l, b);
    var t := Apply(s, step);
    if a in s.done {
      StepKeepsDone(s, step, a);
    } else {
      InLine(s.loops[l], a);
      LastInOrder(Line(s.loops[l]), a, b);
    }
  }

  /** The step that puts b on the queue of loop l: a worker that is through with it, or uv_cancel. */
  predicate Puts(s: State, step: Step, l: nat, b: nat)
    requires Enabled(s, step)
  {
    if step.Post? then s.workers[step.t].id == b && s.requests[b].loop == l
    else step.CancelEnd? && step.loop == l && s.loops[l].cancelling == Some(b)
  }

  lemma {:induction false} PutLine(s: State, step: Step, l: nat, b: nat)
    requires Inv(s) && Enabled(s, step) && Puts(s, step, l, b)
    ensures var t := Apply(s, step);
      && l < |s.loops| && l < |t.loops| && b in t.requests && t.requests[b].loop == l && b !in t.done && b !in Line(s.loops[l])
      && Line(t.loops[l]) == Line(s.loops[l]) + [b]
  {
    hide Counted, Distincts, Line;
    if step.Post? {
      PostLine(s, step.t, l);
      OnlyPlace(s, b, AtWorker(step.t));
    } else {
      CancelEndLine(s, step.loop, l);
      OnlyPlace(s, b, InCancel(l));
    }
    assert !InPlace(s, b, Finished);
  }

  lemma {:induction false} InLine(l: Loop, a: nat)
    ensures a in Line(l) <==> a in l.draining || a in l.queue
  {
  }

  lemma {:induction false} LastInOrder<T>(q: seq<T>, x: T, y: T)
    requires x in q && y !in q
    ensures x in q + [y] && InOrder(q + [y], x, y)
  {
    assert x in q + [y];
  }

  /** Done callbacks are called in the order in which their requests were put on the queue of the loop: if a
      was there, or done, when b was put there, b is not done before a, unless a is cancelled once more. */
  lemma {:induction false} DoneInOrder(run: seq<State>, i: nat, j: nat, step: Step, l: nat, a: nat, b: nat)
    requires IsRun(run) && i < j < |run|
    requires Enabled(run[i], step) && run[i + 1] == Apply(run[i], step) && Puts(run[i], step, l, b)
    requires a in run[i].done || (l < |run[i].loops| && (a in run[i].loops[l].draining || a in run[i].loops[l].queue))
    requires forall k | i < k <= j :: l < |run[k].loops| && run[k].loops[l].cancelling != Some(a)
    ensures b in run[j].done ==> a in run[j].done
  {
    hide Inv, Enabled, Apply, Initial, InOrder, Puts;
    RunKeepsInv(run, i);
    PutAhead(run[i], step, l, a, b);
    AheadRun(run, i + 1, j, l, a, b);
  }

  /** The exception: uv_cancel succeeds again for a request that waits as cancelled, and puts it at the end. From
      then on what stood behind it is called before it. */
  lemma {:induction false} CancelledAgainFallsBehind(s: State, l: nat, a: nat, b: nat)
    requires Inv(s) && l < |s.loops| && s.loops[l].cancelling.None? && a != b
    requires a in Line(s.loops[l]) && b in Line(s.loops[l]) && a in s.requests && s.requests[a].work == Cancelled
    ensures Enabled(s, CancelStart(l, a))
    ensures var t := Apply(s, CancelStart(l, a)); Enabled(t, CancelEnd(l)) && Ahead(Apply(t, CancelEnd(l)), l, b, a)
  {
    hide Inv, InOrder, Without, Line, Apply, Enabled;
    CancelAgain(s, l, a);
    var t := Apply(s, CancelStart(l, a));
    WithoutFacts(Line(s.loops[l]), a);
    StepKeepsInv(s, CancelStart(l, a));
    PutLine(t, CancelEnd(l), l, a);
    LastInOrder(Line(t.loops[l]), b, a);
  }

  lemma {:induction false} CancelAgain(s: State, l: nat, a: nat)
    requires Inv(s) && l < |s.loops| && s.loops[l].cancelling.None?
    requires a in Line(s.loops[l]) && a in s.requests && s.requests[a].work == Cancelled
    ensures Enabled(s, CancelStart(l, a))
    ensures var t := Apply(s, CancelStart(l, a));
      Enabled(t, CancelEnd(l)) && Puts(t, CancelEnd(l), l, a) && l < |t.loops| && Line(t.loops[l]) == Without(Line(s.loops[l]), a)
  {
    hide Counted, Distincts, Without, Line;
    var p := if a in s.loops[l].queue then InQueue(l) else InDraining(l);
    InLine(s.loops[l], a);
    OnlyPlace(s, a, p);
    assert !InPlace(s, a, Finished);
    LineWithout(s.loops[l], a, Some(a));
  }

  // ---- Progress ----

  /** A worker waits only while no common work is queued, and slow work only waits while as many threads as
      may be are at slow work. */
  lemma {:induction false} WaitsOnlyWithoutWork(s: State, w: nat)
    requires Inv(s) && Enabled(s, Wait(w))
    ensures forall id :: Req(id) !in s.wq
    ensures s.pending != [] ==> Count(s.workers, IsSlow) == (|s.workers| + 1) / 2
  {
    hide Placed, Distincts, Count;
  }

  /** A worker that looks for work while common work is queued has got some after one or two looks. */
  lemma {:induction false} CommonWorkStarts(s: State, w: nat, id: nat)
    requires Inv(s) && w < |s.workers| && s.workers[w].AtLoop? && Req(id) in s.wq
    ensures Enabled(s, Take(w))
    ensures var t := Apply(s, Take(w));
      t.workers[w].Taken? || (Enabled(t, Take(w)) && Apply(t, Take(w)).workers[w].Taken?)
  {
    hide Placed, Counted, Threshold;
    HeadOnce(s.wq);
    var t := TakeHead(s, w);
    if s.wq[0] == Token && !t.workers[w].Taken? {
      assert Req(id) in s.wq[1..] && s.wq[1..][0] != Token;
      assert t.wq[0] == s.wq[1..][0] && t.wq[0].Req?;
    }
  }
}
