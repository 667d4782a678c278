/**
 * The thread pool (threadpool.c) as a state machine. Each step is what one thread does while it
 * holds a mutex, or one call of a work function.
 */
module ThreadPool {
  import opened Basics

  datatype Kind = Cpu | FastIo | SlowIo

  /** w->work: the function to call, NULL once it has returned, or uv__cancelled. */
  datatype Work = Function | Null | Cancelled

  /** The token is run_slow_work_message. */
  datatype Item = Token | Req(id: nat)

  datatype Pc = AtLoop | Waiting | Taken(id: nat, slow: bool) | Worked(id: nat, slow: bool) | Returning(slow: bool)

  datatype Request = Request(loop: nat, kind: Kind, work: Work)

  /** queue is loop->wq, draining the local list of uv__work_done, and cancelling the request between
      the two halves of uv__work_cancel. */
  datatype Loop = Loop(queue: seq<nat>, draining: seq<nat>, cancelling: Option<nat>)

  datatype State = State(
    wq: seq<Item>,
    pending: seq<nat>,
    slowRunning: nat,
    idle: nat,
    workers: seq<Pc>,
    loops: seq<Loop>,
    requests: map<nat, Request>,
    ran: set<nat>,
    done: map<nat, Outcome>)

  datatype Outcome = Completed | ECanceled

  /** slow_work_thread_threshold. */
  function Threshold(s: State): nat {
    (|s.workers| + 1) / 2
  }

  datatype Step =
    | Wait(t: nat) | Wake(t: nat) | Take(t: nat) | Run(t: nat) | Post(t: nat) | Return(t: nat)
    | Submit(loop: nat, id: nat, kind: Kind)
    | CancelStart(loop: nat, id: nat) | CancelEnd(loop: nat)
    | DoneStart(loop: nat) | DoneNext(loop: nat)

  /** The condition of the inner loop of a worker. */
  predicate NothingToRun(s: State) {
    s.wq == [] || (s.wq == [Token] && s.slowRunning >= Threshold(s))
  }

  function Without<T(==)>(q: seq<T>, x: T): seq<T> {
    Filter(q, y => y != x)
  }

  /** !QUEUE_EMPTY(&w->wq) && w->work != NULL, for a request whose done callback has not run. */
  predicate Cancellable(s: State, id: nat)
    requires id in s.requests && s.requests[id].loop < |s.loops|
  {
    var l := s.loops[s.requests[id].loop];
    (Req(id) in s.wq || id in s.pending || id in l.queue || id in l.draining) && s.requests[id].work != Null
  }

  /** uv_cancel belongs to the loop's thread, and to a request that is not finished. */
  predicate Enabled(s: State, step: Step) {
    match step
    case Wait(t) => t < |s.workers| && s.workers[t].AtLoop? && NothingToRun(s)
    case Wake(t) => t < |s.workers| && s.workers[t].Waiting? && s.idle > 0
    case Take(t) => t < |s.workers| && s.workers[t].AtLoop? && !NothingToRun(s)
    case Run(t) => t < |s.workers| && s.workers[t].Taken?
    case Post(t) =>
      && t < |s.workers| && s.workers[t].Worked? && s.workers[t].id in s.requests
      && s.requests[s.workers[t].id].loop < |s.loops|
    case Return(t) => t < |s.workers| && s.workers[t].Returning? && (s.workers[t].slow ==> s.slowRunning > 0)
    case Submit(loop, id, _) => loop < |s.loops| && s.loops[loop].cancelling.None? && id !in s.requests
    case CancelStart(loop, id) =>
      && loop < |s.loops| && s.loops[loop].cancelling.None?
      && id in s.requests && s.requests[id].loop == loop && id !in s.done
    case CancelEnd(loop) =>
      loop < |s.loops| && s.loops[loop].cancelling.Some? && s.loops[loop].cancelling.value in s.requests
    case DoneStart(loop) => loop < |s.loops| && s.loops[loop].cancelling.None? && s.loops[loop].draining == []
    case DoneNext(loop) =>
      && loop < |s.loops| && s.loops[loop].cancelling.None? && s.loops[loop].draining != []
      && s.loops[loop].draining[0] in s.requests
  }

  function SetWorker(s: State, t: nat, pc: Pc): State
    requires t < |s.workers|
  {
    s.(workers := s.workers[t := pc])
  }

  function SetLoop(s: State, l: nat, loop: Loop): State
    requires l < |s.loops|
  {
    s.(loops := s.loops[l := loop])
  }

  function SetWork(s: State, id: nat, work: Work): State
    requires id in s.requests
  {
    s.(requests := s.requests[id := s.requests[id].(work := work)])
  }

  /** A worker takes the head of the queue; the token stands for the head of the slow queue. */
  function TakeHead(s: State, t: nat): State
    requires t < |s.workers| && s.wq != []
  {
    var rest := s.wq[1..];
    match s.wq[0]
    case Req(id) => SetWorker(s.(wq := rest), t, Taken(id, false))
    case Token =>
      if s.slowRunning >= Threshold(s) then s.(wq := rest + [Token])
      else if s.pending == [] then s.(wq := rest)
      else
        var more := s.pending[1..];
        SetWorker(s.(slowRunning := s.slowRunning + 1, pending := more, wq := if more == [] then rest else rest + [Token]),
                  t, Taken(s.pending[0], true))
  }

  /** post: slow work goes to its own queue and the token, if it is not queued, to the common one. */
  function PostWork(s: State, id: nat, kind: Kind): State {
    if kind == SlowIo then
      s.(pending := s.pending + [id], wq := if Token in s.wq then s.wq else s.wq + [Token])
    else s.(wq := s.wq + [Req(id)])
  }

  /** QUEUE_REMOVE, wherever the request is linked. */
  function Unlink(s: State, loop: nat, id: nat): State
    requires loop < |s.loops|
  {
    var l := s.loops[loop];
    SetLoop(s.(wq := Without(s.wq, Req(id)), pending := Without(s.pending, id)), loop,
            Loop(Without(l.queue, id), Without(l.draining, id), Some(id)))
  }

  function Apply(s: State, step: Step): State
    requires Enabled(s, step)
  {
    match step
    case Wait(t) => SetWorker(s, t, Waiting).(idle := s.idle + 1)
    case Wake(t) => SetWorker(s, t, AtLoop).(idle := s.idle - 1)
    case Take(t) => TakeHead(s, t)
    case Run(t) => SetWorker(s, t, Worked(s.workers[t].id, s.workers[t].slow)).(ran := s.ran + {s.workers[t].id})
    case Post(t) =>
      var id := s.workers[t].id;
      var l := s.requests[id].loop;
      SetLoop(SetWork(SetWorker(s, t, Returning(s.workers[t].slow)), id, Null), l, s.loops[l].(queue := s.loops[l].queue + [id]))
    case Return(t) =>
      SetWorker(s, t, AtLoop).(slowRunning := if s.workers[t].slow then s.slowRunning - 1 else s.slowRunning)
    case Submit(loop, id, kind) => PostWork(s.(requests := s.requests[id := Request(loop, kind, Function)]), id, kind)
    case CancelStart(loop, id) => if Cancellable(s, id) then Unlink(s, loop, id) else s
    case CancelEnd(loop) =>
      var l := s.loops[loop];
      SetLoop(SetWork(s, l.cancelling.value, Cancelled), loop, Loop(l.queue + [l.cancelling.value], l.draining, None))
    case DoneStart(loop) => SetLoop(s, loop, s.loops[loop].(queue := [], draining := s.loops[loop].queue))
    case DoneNext(loop) =>
      var l := s.loops[loop];
      var outcome := if s.requests[l.draining[0]].work == Cancelled then ECanceled else Completed;
      SetLoop(s, loop, l.(draining := l.draining[1..])).(done := s.done[l.draining[0] := outcome])
  }

  /** The places a request can be in. */
  datatype Place = InWq | InPending | AtWorker(t: nat) | InQueue(l: nat) | InCancel(l: nat) | InDraining(l: nat) | Finished

  predicate Holds(pc: Pc, id: nat) {
    (pc.Taken? || pc.Worked?) && pc.id == id
  }

  predicate InPlace(s: State, id: nat, p: Place) {
    match p
    case InWq => Req(id) in s.wq
    case InPending => id in s.pending
    case AtWorker(t) => t < |s.workers| && Holds(s.workers[t], id)
    case InQueue(l) => l < |s.loops| && id in s.loops[l].queue
    case InCancel(l) => l < |s.loops| && s.loops[l].cancelling == Some(id)
    case InDraining(l) => l < |s.loops| && id in s.loops[l].draining
    case Finished => id in s.done
  }

  /** What is known of a request in a place. */
  predicate WorkAt(s: State, id: nat, p: Place) {
    && id in s.requests
    && var r := s.requests[id];
       r.loop < |s.loops|
       && match p
          case InWq => r.kind != SlowIo && r.work == Function && id !in s.ran
          case InPending => r.kind == SlowIo && r.work == Function && id !in s.ran
          case AtWorker(t) =>
            && t < |s.workers| && Holds(s.workers[t], id) && r.work == Function
            && (s.workers[t].slow <==> r.kind == SlowIo) && (id in s.ran <==> s.workers[t].Worked?)
          case InCancel(l) => r.loop == l && r.work != Null && id !in s.ran
          case InQueue(l) => r.loop == l && r.work != Function && (id in s.ran <==> r.work == Null)
          case InDraining(l) => r.loop == l && r.work != Function && (id in s.ran <==> r.work == Null)
          case Finished => id in s.done && (id in s.ran <==> s.done[id] == Completed)
  }

  /** Each request is in one place, and in the state that goes with it. */
  ghost predicate Placed(s: State) {
    && (forall id, p, q :: InPlace(s, id, p) && InPlace(s, id, q) ==> p == q)
    && (forall id | id in s.requests :: Somewhere(s, id))
    && (forall id, p :: InPlace(s, id, p) ==> WorkAt(s, id, p))
  }

  ghost predicate Somewhere(s: State, id: nat) {
    exists p :: InPlace(s, id, p)
  }

  /** No queue holds anything twice. */
  ghost predicate Distincts(s: State) {
    && Distinct(s.wq) && Distinct(s.pending)
    && forall l | 0 <= l < |s.loops| :: Distinct(s.loops[l].queue) && Distinct(s.loops[l].draining)
  }

  predicate IsSlow(pc: Pc) {
    (pc.Taken? || pc.Worked? || pc.Returning?) && pc.slow
  }

  /** How many workers satisfy p. */
  function Count(ws: seq<Pc>, p: Pc -> bool): nat {
    if ws == [] then 0 else Count(ws[..|ws| - 1], p) + (if p(ws[|ws| - 1]) then 1 else 0)
  }

  /** The counters count, slow work is limited, and slow work that waits has its token queued. */
  ghost predicate Counted(s: State) {
    && s.slowRunning == Count(s.workers, IsSlow) && s.slowRunning <= Threshold(s)
    && s.idle == Count(s.workers, (pc: Pc) => pc.Waiting?)
    && (s.pending != [] ==> Token in s.wq)
  }

  ghost predicate Inv(s: State) {
    Placed(s) && Distincts(s) && Counted(s) && s.ran <= s.requests.Keys
  }

  /** A pool with its threads started and nothing submitted. */
  predicate Initial(s: State) {
    && s.wq == [] && s.pending == [] && s.slowRunning == 0 && s.idle == 0
    && (forall t | 0 <= t < |s.workers| :: s.workers[t] == AtLoop)
    && (forall l | 0 <= l < |s.loops| :: s.loops[l] == Loop([], [], None))
    && s.requests == map[] && s.ran == {} && s.done == map[]
  }

  /** The states of a run, from the first to the last. */
  ghost predicate IsRun(run: seq<State>) {
    && run != [] && Initial(run[0])
    && forall i | 0 < i < |run| :: NextState(run[i - 1], run[i])
  }

  ghost predicate NextState(s: State, t: State) {
    exists step :: Enabled(s, step) && t == Apply(s, step)
  }
}
