/** What holds in every run of the thread pool. */
module ThreadPoolSafety {
  import opened ThreadPool
  import opened ThreadPoolSteps

  lemma {:induction false} NobodyCounted(ws: seq<Pc>, p: Pc -> bool)
    requires forall t | 0 <= t < |ws| :: !p(ws[t])
    ensures Count(ws, p) == 0
  {
    if ws != [] {
      NobodyCounted(ws[..|ws| - 1], p);
    }
  }

  lemma {:induction false} InitialInv(s: State)
    requires Initial(s)
    ensures Inv(s)
  {
    NobodyCounted(s.workers, IsSlow);
    NobodyCounted(s.workers, (pc: Pc) => pc.Waiting?);
    forall id, p ensures !InPlace(s, id, p) {
    }
  }

  lemma {:induction false} RunKeepsInv(run: seq<State>, i: nat)
    requires IsRun(run) && i < |run|
    ensures Inv(run[i])
  {
    hide Inv, Initial, Enabled, Apply;
    if i == 0 {
      InitialInv(run[0]);
    } else {
      RunKeepsInv(run, i - 1);
      assert NextState(run[i - 1], run[i]);
      var step :| Enabled(run[i - 1], step) && run[i] == Apply(run[i - 1], step);
      StepKeepsInv(run[i - 1], step);
    }
  }

  /** In every state of every run a submitted request is in exactly one place. */
  lemma {:induction false} OnePlace(run: seq<State>, i: nat, id: nat) returns (p: Place)
    requires IsRun(run) && i < |run| && id in run[i].requests
    ensures forall q :: InPlace(run[i], id, q) <==> q == p
  {
    hide IsRun;
    RunKeepsInv(run, i);
    assert Somewhere(run[i], id);
    p :| InPlace(run[i], id, p);
    OnlyPlace(run[i], id, p);
  }

  /** A worker that is at a slow request. */
  predicate DoesSlowWork(s: State, pc: Pc) {
    (pc.Taken? || pc.Worked?) && pc.id in s.requests && s.requests[pc.id].kind == SlowIo
  }

  lemma {:induction false} CountMonotone(ws: seq<Pc>, p: Pc -> bool, q: Pc -> bool)
    requires forall t | 0 <= t < |ws| :: p(ws[t]) ==> q(ws[t])
    ensures Count(ws, p) <= Count(ws, q)
  {
    if ws != [] {
      CountMonotone(ws[..|ws| - 1], p, q);
    }
  }

  /** At most half the threads, rounded up, are at slow work at any time. */
  lemma {:induction false} SlowWorkLimited(run: seq<State>, i: nat)
    requires IsRun(run) && i < |run|
    ensures var s := run[i]; Count(s.workers, pc => DoesSlowWork(s, pc)) <= (|s.workers| + 1) / 2
  {
    hide IsRun;
    RunKeepsInv(run, i);
    var s := run[i];
    forall t | 0 <= t < |s.workers| ensures DoesSlowWork(s, s.workers[t]) ==> IsSlow(s.workers[t]) {
      if DoesSlowWork(s, s.workers[t]) {
        OnlyPlace(s, s.workers[t].id, AtWorker(t));
      }
    }
    CountMonotone(s.workers, pc => DoesSlowWork(s, pc), IsSlow);
  }

  /** Slow work that waits has its token in the common queue, exactly once. */
  lemma {:induction false} TokenQueuedOnce(run: seq<State>, i: nat) returns (k: nat)
    requires IsRun(run) && i < |run| && run[i].pending != []
    ensures k < |run[i].wq| && forall j | 0 <= j < |run[i].wq| :: run[i].wq[j] == Token <==> j == k
  {
    hide IsRun;
    RunKeepsInv(run, i);
    k :| 0 <= k < |run[i].wq| && run[i].wq[k] == Token;
  }

  /** No work function is called twice. */
  lemma {:induction false} RunsOnce(s: State, t: nat)
    requires Inv(s) && Enabled(s, Run(t))
    ensures s.workers[t].id !in s.ran
  {
    OnlyPlace(s, s.workers[t].id, AtWorker(t));
  }

  /** A done callback is called once. */
  lemma {:induction false} DoneNotYet(s: State, loop: nat)
    requires Inv(s) && Enabled(s, DoneNext(loop))
    ensures s.loops[loop].draining[0] !in s.done
  {
    var id := s.loops[loop].draining[0];
    OnlyPlace(s, id, InDraining(loop));
    assert InPlace(s, id, Finished) <==> id in s.done;
  }

  lemma {:induction false} StepKeepsDone(s: State, step: Step, id: nat)
    requires Inv(s) && Enabled(s, step) && id in s.done
    ensures id in Apply(s, step).done && Apply(s, step).done[id] == s.done[id]
  {
    hide Inv;
    if step.DoneNext? {
      DoneNotYet(s, step.loop);
    }
  }

  /** What a done callback is told is final: it is UV_ECANCELED if and only if the work function has
      not been called, and then it never is. */
  lemma {:induction false} OutcomeIsFinal(run: seq<State>, i: nat, j: nat, id: nat)
    requires IsRun(run) && i <= j < |run| && id in run[i].done
    ensures id in run[j].done && run[j].done[id] == run[i].done[id]
    ensures run[i].done[id] == ECanceled <==> id !in run[j].ran
    decreases j - i
  {
    hide Inv, Enabled, Apply, Initial;
    if i < j {
      OutcomeIsFinal(run, i, j - 1, id);
      RunKeepsInv(run, j - 1);
      assert NextState(run[j - 1], run[j]);
      var step :| Enabled(run[j - 1], step) && run[j] == Apply(run[j - 1], step);
      StepKeepsDone(run[j - 1], step, id);
    }
    RunKeepsInv(run, j);
    FinishedOutcome(run[j], id);
  }

  lemma {:induction false} FinishedOutcome(s: State, id: nat)
    requires Inv(s) && id in s.done
    ensures s.done[id] == Completed <==> id in s.ran
  {
    OnlyPlace(s, id, Finished);
  }

  /** uv_cancel succeeds exactly for a request that no worker has taken. */
  lemma {:induction false} CancelSucceedsIff(s: State, loop: nat, id: nat)
    requires Inv(s) && Enabled(s, CancelStart(loop, id))
    ensures Cancellable(s, id) <==> id !in s.ran && forall t | 0 <= t < |s.workers| :: !Holds(s.workers[t], id)
  {
    hide Counted, Distincts;
    assert Somewhere(s, id);
    var p :| InPlace(s, id, p);
    OnlyPlace(s, id, p);
    forall t: nat | t < |s.workers| ensures Holds(s.workers[t], id) <==> p == AtWorker(t) {
      assert InPlace(s, id, AtWorker(t)) <==> Holds(s.workers[t], id);
    }
    assert InPlace(s, id, InWq) <==> Req(id) in s.wq;
    assert InPlace(s, id, InPending) <==> id in s.pending;
    assert InPlace(s, id, InQueue(loop)) <==> id in s.loops[loop].queue;
    assert InPlace(s, id, InDraining(loop)) <==> id in s.loops[loop].draining;
  }

  /** Cancelled: on its way to its done callback without having been called. */
  ghost predicate Doomed(s: State, id: nat) {
    id !in s.ran && exists p :: InPlace(s, id, p) && OnTheWay(p)
  }

  predicate OnTheWay(p: Place) {
    p.InCancel? || p.InQueue? || p.InDraining? || p.Finished?
  }

  lemma {:induction false} CancelDooms(s: State, loop: nat, id: nat)
    requires Inv(s) && Enabled(s, CancelStart(loop, id)) && Cancellable(s, id)
    ensures Doomed(Apply(s, CancelStart(loop, id)), id)
  {
    CancelSucceedsIff(s, loop, id);
    assert InPlace(Apply(s, CancelStart(loop, id)), id, InCancel(loop));
  }

  lemma {:induction false} StepKeepsDoomed(s: State, step: Step, id: nat)
    requires Inv(s) && Enabled(s, step) && Doomed(s, id)
    ensures Doomed(Apply(s, step), id)
  {
    hide Inv;
    var p :| InPlace(s, id, p) && OnTheWay(p);
    OnlyAt(s, id, p);
    if step.Run? {
      assert InPlace(s, s.workers[step.t].id, AtWorker(step.t));
    }
    var t := Apply(s, step);
    StepKeepsInv(s, step);
    assert id in t.requests;
    assert Somewhere(t, id) by { SomewhereAfter(t, id); }
    var q :| InPlace(t, id, q);
    if !OnTheWay(q) {
      NotBack(s, step, id, q);
    }
  }

  lemma {:induction false} OnlyAt(s: State, id: nat, p: Place)
    requires Inv(s) && InPlace(s, id, p)
    ensures id in s.requests && forall q :: InPlace(s, id, q) ==> q == p
  {
    OnlyPlace(s, id, p);
  }

  lemma {:induction false} SomewhereAfter(s: State, id: nat)
    requires Inv(s) && id in s.requests
    ensures Somewhere(s, id)
  {
  }

  /** A request in a queue or at a worker was in a queue or at a worker before. */
  lemma {:induction false} NotBack(s: State, step: Step, id: nat, q: Place)
    requires Enabled(s, step) && id in s.requests && !OnTheWay(q) && InPlace(Apply(s, step), id, q)
    ensures exists p :: InPlace(s, id, p) && !OnTheWay(p)
  {
    assert InPlace(s, id, InWq) <==> Req(id) in s.wq;
    assert InPlace(s, id, InPending) <==> id in s.pending;
    if q.AtWorker? {
      TakenFrom(s, step, id, q.t);
    } else {
      QueuedFrom(s, step, id);
    }
  }

  lemma {:induction false} QueuedFrom(s: State, step: Step, id: nat)
    requires Enabled(s, step) && id in s.requests
    requires Req(id) in Apply(s, step).wq || id in Apply(s, step).pending
    ensures Req(id) in s.wq || id in s.pending
  {
    hide Without, NothingToRun;
    if step.CancelStart? {
      WithoutFacts(s.wq, Req(step.id));
      WithoutFacts(s.pending, step.id);
    }
  }

  lemma {:induction false} TakenFrom(s: State, step: Step, id: nat, w: nat)
    requires Enabled(s, step) && InPlace(Apply(s, step), id, AtWorker(w))
    ensures InPlace(s, id, AtWorker(w)) || Req(id) in s.wq || id in s.pending
  {
    hide Without, NothingToRun;
    assert step.Take? ==> s.wq != [] by { EmptyIsNothing(s); }
  }

  lemma {:induction false} EmptyIsNothing(s: State)
    ensures s.wq == [] ==> NothingToRun(s)
  {
  }

  /** Once uv_cancel has succeeded, the work function is never called. */
  lemma {:induction false} CancelledNeverRuns(run: seq<State>, i: nat, j: nat, loop: nat, id: nat)
    requires IsRun(run) && i < j < |run|
    requires Enabled(run[i], CancelStart(loop, id)) && Cancellable(run[i], id)
    requires run[i + 1] == Apply(run[i], CancelStart(loop, id))
    ensures Doomed(run[j], id) && (id in run[j].done ==> run[j].done[id] == ECanceled)
    decreases j
  {
    hide Inv, Enabled, Apply, Initial, Doomed, Cancellable;
    if j == i + 1 {
      RunKeepsInv(run, i);
      CancelDooms(run[i], loop, id);
    } else {
      CancelledNeverRuns(run, i, j - 1, loop, id);
      RunKeepsInv(run, j - 1);
      assert NextState(run[j - 1], run[j]);
      var step :| Enabled(run[j - 1], step) && run[j] == Apply(run[j - 1], step);
      StepKeepsDoomed(run[j - 1], step, id);
    }
    RunKeepsInv(run, j);
    DoomedOutcome(run[j], id);
  }

  lemma {:induction false} DoomedOutcome(s: State, id: nat)
    requires Inv(s) && Doomed(s, id)
    ensures id in s.done ==> s.done[id] == ECanceled
  {
    hide Inv;
    if id in s.done {
      FinishedOutcome(s, id);
    }
  }
}
