/** Workers blocked on a condition variable over a shared queue: `BlockingQueue` and the pool that runs it. */
module ThreadPool {
  type Task = nat
  type Worker = nat

  /** A worker is about to call `pop`, asleep in the wait, woken but not yet holding the lock again, running a
      task, or out of `run`. */
  datatype Status = Entering | Waiting | Woken | Running(task: Task) | Left

  /** `pushed`, `popped` and `returned` are history: the tasks accepted, taken, and run to their end. */
  datatype Pool = Pool(
    queue: seq<Task>, maxCount: nat, exit: bool, workers: map<Worker, Status>,
    pushed: seq<Task>, popped: seq<Task>, returned: seq<Task>)

  datatype Event =
    | Push(task: Task, notified: Worker)  // one locked `push`; `notified` is whom `notify_one` picks, if anyone waits
    | Check(worker: Worker)               // one locked evaluation of the wait predicate in `pop`
    | Spurious(worker: Worker)            // a wake-up nobody asked for
    | Return(worker: Worker)              // the task returns and the worker loops
    | NotifyExit

  function With(p: Pool, status: Status): set<Worker> {
    set w | w in p.workers && p.workers[w] == status
  }

  predicate Full(p: Pool) { p.maxCount > 0 && |p.queue| >= p.maxCount }

  function AfterPush(p: Pool, task: Task, notified: Worker): Pool {
    if Full(p) then p else
    var w := if notified in p.workers && p.workers[notified] == Waiting
             then p.workers[notified := Woken] else p.workers;
    p.(queue := p.queue + [task], pushed := p.pushed + [task], workers := w)
  }

  /** `notify_one` wakes somebody whenever somebody waits. */
  predicate Notifies(p: Pool, notified: Worker) {
    With(p, Waiting) != {} ==> notified in With(p, Waiting)
  }

  function AfterCheck(p: Pool, w: Worker): Pool
    requires w in p.workers
  {
    if p.exit then p.(workers := p.workers[w := Left])
    else if p.queue == [] then p.(workers := p.workers[w := Waiting])
    else p.(workers := p.workers[w := Running(p.queue[0])], queue := p.queue[1..], popped := p.popped + [p.queue[0]])
  }

  function AfterReturn(p: Pool, w: Worker): Pool
    requires w in p.workers && p.workers[w].Running?
  {
    p.(workers := p.workers[w := Entering], returned := p.returned + [p.workers[w].task])
  }

  function AfterExit(p: Pool): Pool {
    p.(exit := true, workers := map w | w in p.workers :: if p.workers[w] == Waiting then Woken else p.workers[w])
  }

  /** About to evaluate the wait predicate, as soon as it gets the lock. */
  predicate Ready(p: Pool, w: Worker) {
    w in p.workers && (p.workers[w].Entering? || p.workers[w].Woken?)
  }

  function Apply(p: Pool, e: Event): Pool {
    match e
    case Push(task, notified) => if Notifies(p, notified) then AfterPush(p, task, notified) else p
    case Check(w) =>
      if Ready(p, w) then AfterCheck(p, w) else p
    case Spurious(w) =>
      if w in p.workers && p.workers[w] == Waiting then p.(workers := p.workers[w := Woken]) else p
    case Return(w) =>
      if w in p.workers && p.workers[w].Running? then AfterReturn(p, w) else p
    case NotifyExit => AfterExit(p)
  }

  function Run(p: Pool, es: seq<Event>): Pool
    decreases |es|
  {
    if es == [] then p else Run(Apply(p, es[0]), es[1..])
  }

  /** As `start` leaves it: `workers` threads entering `run`, an empty queue, the exit flag down. */
  function Started(workers: set<Worker>, maxCount: nat): Pool {
    Pool([], maxCount, false, map w | w in workers :: Entering, [], [], [])
  }

  // ---------------------------------------------------------------- no lost wake-up

  ghost predicate Inv(p: Pool) {
    && p.pushed == p.popped + p.queue
    && (p.maxCount > 0 ==> |p.queue| <= p.maxCount)
    && (if p.exit then With(p, Waiting) == {} else NoLostWakeup(p))
  }

  /** While anybody sleeps there is a woken worker for every queued task. */
  ghost predicate NoLostWakeup(p: Pool) {
    With(p, Waiting) != {} ==> |p.queue| <= |With(p, Woken)|
  }

  /** What changing one worker's status does to the workers in any given status. */
  lemma OneChange(p: Pool, w: Worker, from: Status, to: Status)
    requires w in p.workers && p.workers[w] == from
    ensures var q := p.(workers := p.workers[w := to]);
      forall s :: With(q, s) == if s == to then With(p, s) + {w} else With(p, s) - {w}
  {
  }

  lemma PushKeepsInv(p: Pool, task: Task, n: Worker)
    requires Inv(p) && Notifies(p, n)
    ensures Inv(AfterPush(p, task, n))
  {
    var q := AfterPush(p, task, n);
    if !Full(p) {
      assert p.popped + (p.queue + [task]) == p.pushed + [task];
      if n in p.workers && p.workers[n] == Waiting {
        OneChange(p, n, Waiting, Woken);
        assert With(q, Woken) == With(p, Woken) + {n} && With(q, Waiting) == With(p, Waiting) - {n};
      } else {
        assert With(q, Waiting) == With(p, Waiting) == {};
      }
    }
  }

  lemma CheckKeepsInv(p: Pool, w: Worker)
    requires Inv(p) && Ready(p, w)
    ensures Inv(AfterCheck(p, w))
  {
    var q := AfterCheck(p, w);
    OneChange(p, w, p.workers[w], q.workers[w]);
    assert q.workers == p.(workers := p.workers[w := q.workers[w]]).workers;
    assert With(q, Woken) == With(p, Woken) - {w};
    if q.workers[w] != Waiting {
      assert With(q, Waiting) == With(p, Waiting) - {w};
    }
    if !p.exit && p.queue != [] {
      assert (p.popped + [p.queue[0]]) + p.queue[1..] == p.popped + p.queue;
    }
  }

  lemma SpuriousKeepsInv(p: Pool, w: Worker)
    requires Inv(p) && w in p.workers && p.workers[w] == Waiting
    ensures Inv(p.(workers := p.workers[w := Woken]))
  {
    var q := p.(workers := p.workers[w := Woken]);
    OneChange(p, w, Waiting, Woken);
    assert w in With(p, Waiting);
    assert With(q, Woken) == With(p, Woken) + {w} && With(q, Waiting) == With(p, Waiting) - {w};
  }

  lemma ReturnKeepsInv(p: Pool, w: Worker)
    requires Inv(p) && w in p.workers && p.workers[w].Running?
    ensures Inv(AfterReturn(p, w))
  {
    var q := AfterReturn(p, w);
    OneChange(p, w, p.workers[w], Entering);
    assert q.workers == p.(workers := p.workers[w := Entering]).workers;
    assert With(q, Woken) == With(p, Woken) && With(q, Waiting) == With(p, Waiting);
  }

  lemma ExitKeepsInv(p: Pool)
    requires Inv(p)
    ensures Inv(AfterExit(p))
  {
  }

  lemma StepKeepsInv(p: Pool, e: Event)
    requires Inv(p)
    ensures Inv(Apply(p, e))
  {
    hide Inv, AfterPush, AfterCheck, AfterExit;
    match e
    case Push(task, n) => if Notifies(p, n) { PushKeepsInv(p, task, n); }
    case Check(w) => if Ready(p, w) { CheckKeepsInv(p, w); }
    case Spurious(w) => if w in p.workers && p.workers[w] == Waiting { SpuriousKeepsInv(p, w); }
    case Return(w) => if w in p.workers && p.workers[w].Running? { ReturnKeepsInv(p, w); }
    case NotifyExit => ExitKeepsInv(p);
  }

  lemma {:induction false} RunKeepsInv(p: Pool, es: seq<Event>)
    requires Inv(p)
    ensures Inv(Run(p, es))
    decreases |es|
  {
    if es != [] {
      StepKeepsInv(p, es[0]);
      RunKeepsInv(Apply(p, es[0]), es[1..]);
    }
  }

  /** With any number of workers, barging arrivals and spurious wake-ups: tasks leave in the order they came,
      the bound is kept, and before the exit a non-empty queue never finds every worker asleep. */
  lemma NoLostWakeups(workers: set<Worker>, maxCount: nat, es: seq<Event>)
    ensures var p := Run(Started(workers, maxCount), es);
      && p.pushed == p.popped + p.queue
      && (maxCount > 0 ==> |p.queue| <= maxCount)
      && (!p.exit && With(p, Waiting) != {} ==> |p.queue| <= |With(p, Woken)|)
      && (!p.exit && p.queue != [] && workers != {} ==> With(p, Waiting) != workers)
  {
    RunKeepsInv(Started(workers, maxCount), es);
    RunKeepsBound(Started(workers, maxCount), es);
  }

  lemma {:induction false} RunKeepsBound(p: Pool, es: seq<Event>)
    ensures Run(p, es).maxCount == p.maxCount && Run(p, es).workers.Keys == p.workers.Keys
    decreases |es|
  {
    if es != [] {
      RunKeepsBound(Apply(p, es[0]), es[1..]);
    }
  }

  // ---------------------------------------------------------------- which tasks are run

  /** A push is accepted, behind all others, unless the queue has a bound and is at it. */
  lemma PushByCases(p: Pool, task: Task, n: Worker)
    requires Notifies(p, n)
    ensures var q := Apply(p, Push(task, n)); var taken := p.maxCount == 0 || |p.queue| < p.maxCount;
      && q.queue == (if taken then p.queue + [task] else p.queue)
      && q.pushed == (if taken then p.pushed + [task] else p.pushed)
      && q.popped == p.popped && q.exit == p.exit && (!taken ==> q == p)
  {
  }

  /** What a ready worker finds: after the exit it leaves; otherwise it takes and runs the head of the queue, and
      goes to sleep if there is none. */
  lemma CheckByCases(p: Pool, w: Worker)
    requires Ready(p, w)
    ensures var q := Apply(p, Check(w));
      && q.workers.Keys == p.workers.Keys && (forall v <- p.workers :: v != w ==> q.workers[v] == p.workers[v])
      && (p.exit ==> q.workers[w] == Left && q.queue == p.queue)
      && (!p.exit && p.queue != [] ==> q.workers[w] == Running(p.queue[0]) && q.queue == p.queue[1..])
      && (!p.exit && p.queue == [] ==> q.workers[w] == Waiting && q.queue == p.queue)
  {
  }

  /** The task that the event hands to a worker: one that is running it now and was not running before. */
  function Starts(p: Pool, e: Event): seq<Task> {
    if e.Check? && e.worker in p.workers && !p.workers[e.worker].Running? then
      var q := Apply(p, e);
      if e.worker in q.workers && q.workers[e.worker].Running? then [q.workers[e.worker].task] else []
    else []
  }

  function Handed(p: Pool, es: seq<Event>): seq<Task>
    decreases |es|
  {
    if es == [] then [] else Starts(p, es[0]) + Handed(Apply(p, es[0]), es[1..])
  }

  lemma StepHands(p: Pool, e: Event)
    ensures Apply(p, e).popped == p.popped + Starts(p, e)
  {
    assert p.popped + [] == p.popped;
  }

  /** The tasks taken from the queue are those that workers were seen to start, in the same order. */
  lemma {:induction false} PoppedAreHanded(p: Pool, es: seq<Event>)
    ensures Run(p, es).popped == p.popped + Handed(p, es)
    decreases |es|
  {
    hide Apply, Starts;
    if es == [] {
      assert p.popped + [] == p.popped;
    } else {
      StepHands(p, es[0]);
      PoppedAreHanded(Apply(p, es[0]), es[1..]);
      assert (p.popped + Starts(p, es[0])) + Handed(Apply(p, es[0]), es[1..]) == p.popped + Handed(p, es);
    }
  }

  /** Every task taken is being run or has returned, each as often as it was taken; and before the exit nobody
      leaves. */
  ghost predicate Accounted(p: Pool) {
    && (forall t :: multiset(p.popped)[t] == |With(p, Running(t))| + multiset(p.returned)[t])
    && (!p.exit ==> forall w <- p.workers :: p.workers[w] != Left)
  }

  /** A change of one worker's status, seen in the number of workers on one task. */
  lemma OnTask(p: Pool, q: Pool, w: Worker, to: Status, t: Task)
    requires w in p.workers && q.workers == p.workers[w := to]
    ensures |With(q, Running(t))| + (if p.workers[w] == Running(t) then 1 else 0)
         == |With(p, Running(t))| + (if to == Running(t) then 1 else 0)
  {
    var s := Running(t);
    assert With(q, s) == if s == to then With(p, s) + {w} else With(p, s) - {w};
    assert w in With(p, s) <==> p.workers[w] == s;
  }

  lemma CheckKeepsAccount(p: Pool, w: Worker)
    requires Accounted(p) && Ready(p, w)
    ensures Accounted(AfterCheck(p, w))
  {
    var q := AfterCheck(p, w);
    assert q.workers == p.workers[w := q.workers[w]];
    forall t ensures multiset(q.popped)[t] == |With(q, Running(t))| + multiset(q.returned)[t] {
      OnTask(p, q, w, q.workers[w], t);
    }
  }

  lemma ReturnKeepsAccount(p: Pool, w: Worker)
    requires Accounted(p) && w in p.workers && p.workers[w].Running?
    ensures Accounted(AfterReturn(p, w))
  {
    var q := AfterReturn(p, w);
    forall t ensures multiset(q.popped)[t] == |With(q, Running(t))| + multiset(q.returned)[t] {
      OnTask(p, q, w, Entering, t);
    }
  }

  /** What changes no history, and nobody who runs a task. */
  lemma IdleKeepsAccount(p: Pool, q: Pool)
    requires Accounted(p) && q.popped == p.popped && q.returned == p.returned && q.workers.Keys == p.workers.Keys
    requires forall w <- p.workers :: q.workers[w] == p.workers[w] || (p.workers[w] == Waiting && q.workers[w] == Woken)
    requires p.exit ==> q.exit
    ensures Accounted(q)
  {
    forall t ensures With(q, Running(t)) == With(p, Running(t)) {
    }
  }

  lemma StepKeepsAccount(p: Pool, e: Event)
    requires Accounted(p)
    ensures Accounted(Apply(p, e))
  {
    hide Accounted, AfterCheck, AfterReturn;
    var q := Apply(p, e);
    match e
    case Check(w) => if Ready(p, w) { CheckKeepsAccount(p, w); }
    case Return(w) => if w in p.workers && p.workers[w].Running? { ReturnKeepsAccount(p, w); }
    case _ => IdleKeepsAccount(p, q);
  }

  lemma {:induction false} RunKeepsAccount(p: Pool, es: seq<Event>)
    requires Accounted(p)
    ensures Accounted(Run(p, es))
    decreases |es|
  {
    hide Accounted, Apply;
    if es != [] {
      StepKeepsAccount(p, es[0]);
      RunKeepsAccount(Apply(p, es[0]), es[1..]);
    }
  }

  /** In every run, each task accepted is in the queue, in the hands of a worker, or returned, as often as it was
      pushed, and none is run that was not; the tasks were started in the order in which they were pushed; and
      before the exit no worker has left. */
  lemma EveryTaskIsRunOnce(workers: set<Worker>, maxCount: nat, es: seq<Event>)
    ensures var p0 := Started(workers, maxCount);
      var p := Run(p0, es);
      && (forall t :: multiset(p.pushed)[t]
                   == multiset(p.queue)[t] + |With(p, Running(t))| + multiset(p.returned)[t])
      && Handed(p0, es) + p.queue == p.pushed
      && (!p.exit ==> forall w <- p.workers :: p.workers[w] != Left)
  {
    var p0 := Started(workers, maxCount);
    var p := Run(p0, es);
    assert forall t :: With(p0, Running(t)) == {};
    RunKeepsAccount(p0, es);
    RunKeepsInv(p0, es);
    PoppedAreHanded(p0, es);
    hide Run, Handed;
    assert [] + Handed(p0, es) == Handed(p0, es);
    assert multiset(p.pushed) == multiset(p.popped) + multiset(p.queue);
  }

  /** What was pushed is what the push events offered, less what a full queue refused. */
  function Offered(p: Pool, es: seq<Event>): seq<Task>
    decreases |es|
  {
    if es == [] then [] else
    var e := es[0];
    (if e.Push? && Notifies(p, e.notified) && (p.maxCount == 0 || |p.queue| < p.maxCount) then [e.task] else [])
    + Offered(Apply(p, e), es[1..])
  }

  lemma {:induction false} PushedAreOffered(p: Pool, es: seq<Event>)
    ensures Run(p, es).pushed == p.pushed + Offered(p, es)
    decreases |es|
  {
    if es == [] {
      assert p.pushed + [] == p.pushed;
    } else {
      PushedAreOffered(Apply(p, es[0]), es[1..]);
      assert Apply(p, es[0]).pushed + Offered(Apply(p, es[0]), es[1..]) == p.pushed + Offered(p, es);
    }
  }

  // ---------------------------------------------------------------- shutdown

  function Alive(p: Pool): set<Worker> { set w | w in p.workers && p.workers[w] != Left }
  function Busy(p: Pool): set<Worker> { set w | w in p.workers && p.workers[w].Running? }

  /** How many worker steps the pool can still take once the exit flag is up. */
  function Measure(p: Pool): nat { |Alive(p)| + |Busy(p)| }

  predicate WorkerStep(e: Event) { e.Check? || e.Spurious? || e.Return? }

  /** How many of the events are worker steps that had an effect. */
  function Effective(p: Pool, es: seq<Event>): nat
    decreases |es|
  {
    if es == [] then 0 else
    (if WorkerStep(es[0]) && Apply(p, es[0]) != p then 1 else 0) + Effective(Apply(p, es[0]), es[1..])
  }

  lemma ExitCheck(p: Pool, w: Worker)
    requires p.exit && Ready(p, w)
    ensures var q := AfterCheck(p, w);
      q.exit && q.popped == p.popped && Measure(q) < Measure(p)
  {
    var q := AfterCheck(p, w);
    assert Alive(q) == Alive(p) - {w} && Busy(q) == Busy(p) && w in Alive(p);
  }

  lemma ExitReturn(p: Pool, w: Worker)
    requires w in p.workers && p.workers[w].Running?
    ensures Measure(AfterReturn(p, w)) < Measure(p)
  {
    var q := AfterReturn(p, w);
    assert Alive(q) == Alive(p) && Busy(q) == Busy(p) - {w} && w in Busy(p);
  }

  lemma ExitStep(p: Pool, e: Event)
    requires Inv(p) && p.exit
    ensures var q := Apply(p, e);
      && q.exit && q.popped == p.popped
      && Measure(q) + (if WorkerStep(e) && q != p then 1 else 0) <= Measure(p)
  {
    hide AfterCheck, Measure;
    var q := Apply(p, e);
    assert forall w <- p.workers :: p.workers[w] == Waiting ==> w in With(p, Waiting);
    match e
    case Push(_, _) => MeasureSame(p, q);
    case Check(w) => if Ready(p, w) { ExitCheck(p, w); }
    case Return(w) => if w in p.workers && p.workers[w].Running? { ExitReturn(p, w); }
    case Spurious(_) =>
    case NotifyExit =>
      assert q.workers == p.workers;
      MeasureSame(p, q);
  }

  lemma MeasureSame(p: Pool, q: Pool)
    requires p.workers == q.workers
    ensures Measure(p) == Measure(q)
  {
  }

  /** After the exit no task is taken any more, and the workers have only boundedly many steps left, whatever is
      pushed meanwhile. */
  lemma {:induction false} ShutdownIsBounded(p: Pool, es: seq<Event>)
    requires Inv(p) && p.exit
    ensures Run(p, es).popped == p.popped && Run(p, es).exit
    ensures Measure(Run(p, es)) + Effective(p, es) <= Measure(p)
    decreases |es|
  {
    if es != [] {
      ExitStep(p, es[0]);
      StepKeepsInv(p, es[0]);
      ShutdownIsBounded(Apply(p, es[0]), es[1..]);
    }
  }

  /** What a worker that has not left `run` does next: a running task returns, anyone else evaluates the wait. */
  function NextOf(p: Pool, w: Worker): Event
    requires w in p.workers
  {
    if p.workers[w].Running? then Return(w) else Check(w)
  }

  /** After the exit every worker that has not left has a step, so the steps end only when all have left. */
  lemma ShutdownNeverBlocks(p: Pool, w: Worker)
    requires Inv(p) && p.exit && w in Alive(p)
    ensures WorkerStep(NextOf(p, w)) && Apply(p, NextOf(p, w)) != p
  {
    assert p.workers[w] == Waiting ==> w in With(p, Waiting);
    var q := Apply(p, NextOf(p, w));
    assert q.workers[w] != p.workers[w];
  }

  // ---------------------------------------------------------------- the code

  class ThreadPool {
    var threads: seq<Worker>
    var queue: seq<Task>
    var maxCount: nat
    var exit: bool
    /** Where the operating system has each thread. */
    var workers: map<Worker, Status>
    ghost var pushed: seq<Task>
    ghost var popped: seq<Task>
    ghost var returned: seq<Task>

    ghost function View(): Pool
      reads this
    {
      Pool(queue, maxCount, exit, workers, pushed, popped, returned)
    }

    ghost predicate Valid()
      reads this
    {
      Inv(View()) && workers.Keys == (set w | w in threads)
    }

    constructor ()
      ensures Valid() && threads == []
    {
      threads, queue, maxCount, exit, workers, pushed, popped, returned := [], [], 0, false, map[], [], [], [];
    }

    /** `start` with the names the new threads get. */
    method Start(names: seq<Worker>, maxTask: nat) returns (ret: int)
      requires Valid()
      modifies this
      ensures Valid()
      ensures ret == if |names| < 1 || old(threads) != [] then -1 else 0
      ensures ret == 0 ==> threads == names && View() == Started((set w | w in names), maxTask)
      ensures ret != 0 ==> threads == old(threads) && View() == old(View())
    {
      if |names| < 1 || threads != [] {
        return -1;
      }
      Init(maxTask);
      workers := map[];
      for i := 0 to |names|
        invariant threads == names[..i] && workers == map w | w in names[..i] :: Entering
        invariant (queue, maxCount, exit, pushed, popped, returned) == ([], maxTask, false, [], [], [])
      {
        threads := threads + [names[i]];
        workers := workers[names[i] := Entering];
      }
      return 0;
    }

    method Init(max: nat)
      modifies this
      ensures (queue, maxCount, exit, pushed, popped, returned) == ([], max, false, [], [], [])
      ensures workers == old(workers) && threads == old(threads)
    {
      maxCount, exit, queue, pushed, popped, returned := max, false, [], [], [], [];
    }

    /** `append`, which is `push`; `notified` is the waiting thread the condition variable picks. */
    method Append(task: Task, notified: Worker) returns (ok: bool)
      requires Valid() && Notifies(View(), notified)
      modifies this
      ensures Valid() && ok == (maxCount == 0 || |old(queue)| < maxCount) && threads == old(threads)
      ensures View() == Apply(old(View()), Push(task, notified))
    {
      PushKeepsInv(View(), task, notified);
      if maxCount > 0 && |queue| >= maxCount {
        return false;
      }
      queue, pushed := queue + [task], pushed + [task];
      if notified in workers && workers[notified] == Waiting {
        workers := workers[notified := Woken];
      }
      return true;
    }

    /** The part of `pop` that runs under the lock, once per evaluation of the wait predicate. */
    method PopLocked(w: Worker)
      requires Valid() && Ready(View(), w)
      modifies this
      ensures Valid() && threads == old(threads)
      ensures View() == Apply(old(View()), Check(w))
      ensures !exit && old(queue) != [] ==> workers[w] == Running(old(queue)[0]) && queue == old(queue)[1..]
    {
      CheckKeepsInv(View(), w);
      if !(queue != [] || exit) {
        workers := workers[w := Waiting];
      } else if exit {
        workers := workers[w := Left];
      } else {
        workers := workers[w := Running(queue[0])];
        popped := popped + [queue[0]];
        queue := queue[1..];
      }
    }

    method TaskReturns(w: Worker)
      requires Valid() && w in workers && workers[w].Running?
      modifies this
      ensures Valid() && threads == old(threads)
      ensures View() == Apply(old(View()), Return(w))
    {
      StepKeepsInv(View(), Return(w));
      returned := returned + [workers[w].task];
      workers := workers[w := Entering];
    }

    method NotifyAll()
      requires Valid()
      modifies this
      ensures Valid() && threads == old(threads)
      ensures View() == AfterExit(old(View()))
    {
      StepKeepsInv(View(), NotifyExit);
      exit := true;
      workers := map w | w in workers :: if workers[w] == Waiting then Woken else workers[w];
    }

    /** `std::thread::join`: until thread `t` has left `run`, any worker may be the one to move, and other threads
        may push the tasks in `arriving`, at any time and as many of them as they like. */
    method Join(t: Worker, arriving: seq<Task>)
      requires Valid() && exit && t in workers
      modifies this
      ensures Valid() && exit && threads == old(threads) && old(queue) <= queue && popped == old(popped)
      ensures workers[t] == Left
      ensures forall w <- workers :: w in old(workers) && (old(workers[w]) == Left ==> workers[w] == Left)
    {
      var next := 0;
      while workers[t] != Left
        invariant next <= |arriving|
        invariant Valid() && exit && threads == old(threads) && old(queue) <= queue && popped == old(popped)
        invariant t in workers
        invariant forall w <- workers :: w in old(workers) && (old(workers[w]) == Left ==> workers[w] == Left)
        decreases |arriving| - next + Measure(View())
      {
        assert t in Alive(View());
        var pushes: bool := *;
        if pushes && next < |arriving| {
          ExitStep(View(), Push(arriving[next], t));
          PushAfterExit(arriving[next], t);
          next := next + 1;
          continue;
        }
        var w :| w in workers && workers[w] != Left;
        ShutdownNeverBlocks(View(), w);
        ExitStep(View(), NextOf(View(), w));
        if workers[w].Running? {
          TaskReturns(w);
        } else {
          PopLocked(w);
        }
      }
    }

    /** A push once the exit flag is up: nobody waits any more, so there is nobody to wake. */
    method PushAfterExit(task: Task, anyone: Worker)
      requires Valid() && exit
      modifies this
      ensures Valid() && exit && threads == old(threads) && workers == old(workers) && popped == old(popped)
      ensures old(queue) <= queue && View() == Apply(old(View()), Push(task, anyone))
    {
      assert anyone in workers && workers[anyone] == Waiting ==> anyone in With(View(), Waiting);
      var _ := Append(task, anyone);
    }

    /** `stop`: it returns, with every worker gone and no task taken since the exit, whatever is pushed while it
        joins each of them. */
    method Stop(arriving: Worker -> seq<Task>) returns (ret: int)
      requires Valid()
      modifies this
      ensures Valid() && ret == (if old(threads) == [] then -1 else 0) && threads == []
      ensures ret == 0 ==> exit && old(queue) <= queue && popped == old(popped)
      ensures ret != 0 ==> View() == old(View())
    {
      if threads == [] {
        return -1;
      }
      NotifyAll();
      for i := 0 to |threads|
        invariant Valid() && exit && threads == old(threads) && old(queue) <= queue && popped == old(popped)
        invariant forall k :: 0 <= k < i ==> threads[k] in workers && workers[threads[k]] == Left
      {
        assert threads[i] in workers;
        Join(threads[i], arriving(threads[i]));
      }
      assert forall w <- workers :: workers[w] == Left;
      threads, workers := [], map[];
      return 0;
    }
  }
}
