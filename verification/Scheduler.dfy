/** Handing tasks from any thread to the loop: a locked vector, a swap, and a coalescing wake-up signal. */
module Scheduler {
  import opened Base

  type Task = nat
  type Thread = nat

  /** Where the loop thread is: waiting, in `on_async` before the swap, or running the swapped batch. */
  datatype Loop = Idle | Fired | Draining

  /** `signalling` holds the threads between the push and the signal of `post`; `pending` is the one signal
      that any number of `uv_async_send` calls leave; `lost` counts the calls that failed. */
  datatype Sched = Sched(
    running: bool, queue: seq<Task>, pending: bool, signalling: set<Thread>, loop: Loop, batch: seq<Task>,
    posted: seq<Task>, executed: seq<Task>, lost: nat)

  const START := Sched(true, [], false, {}, Idle, [], [], [], 0)

  datatype Event =
    | Push(thread: Thread, task: Task)    // the locked section of `post`
    | Signal(thread: Thread, ok: bool)    // its `uv_async_send`
    | Fire                                // the loop takes the pending signal and enters `on_async`
    | Swap                                // the locked section of `on_async`
    | RunOne                              // `item()`
    | Finish
    | Stop                                // `on_stop`: the async handle is closed

  function Apply(s: Sched, e: Event): Sched {
    match e
    case Push(t, task) =>
      if t in s.signalling then s else
      s.(queue := s.queue + [task], posted := s.posted + [task], signalling := s.signalling + {t})
    case Signal(t, ok) =>
      if t !in s.signalling then s else
      s.(signalling := s.signalling - {t}, pending := s.pending || ok, lost := s.lost + if ok then 0 else 1)
    case Fire =>
      if s.running && s.loop == Idle && s.pending then s.(pending := false, loop := Fired) else s
    case Swap =>
      if s.loop == Fired then s.(batch := s.queue, queue := [], loop := Draining) else s
    case RunOne =>
      if s.loop == Draining && s.batch != [] then
        s.(executed := s.executed + [s.batch[0]], batch := s.batch[1..])
      else s
    case Finish =>
      if s.loop == Draining && s.batch == [] then s.(loop := Idle) else s
    case Stop => s.(running := false)
  }

  function Run(s: Sched, es: seq<Event>): Sched
    decreases |es|
  {
    if es == [] then s else Run(Apply(s, es[0]), es[1..])
  }

  /** A wake-up for the queue is on its way: signalled, about to be, or already being answered. */
  predicate WakeUpComing(s: Sched) { s.pending || s.signalling != {} || s.loop == Fired }

  /** The queue is not stranded. */
  predicate Attended(s: Sched) { s.queue == [] || WakeUpComing(s) }

  /** Nothing posted is lost, doubled or reordered, and a queued task always has a wake-up on its way, unless a
      signal failed. */
  ghost predicate Inv(s: Sched) {
    && s.posted == s.executed + s.batch + s.queue
    && (s.loop != Draining ==> s.batch == [])
    && (s.running && s.lost == 0 ==> Attended(s))
  }

  lemma StepKeepsInv(s: Sched, e: Event)
    requires Inv(s)
    ensures Inv(Apply(s, e))
  {
    match e
    case Push(t, task) =>
      assert s.executed + s.batch + (s.queue + [task]) == s.posted + [task];
      assert t in s.signalling + {t};
    case Swap => assert s.executed + [] + s.queue == s.executed + s.queue + [];
    case RunOne =>
      if s.batch != [] {
        assert (s.executed + [s.batch[0]]) + s.batch[1..] == s.executed + s.batch;
      }
    case _ =>
  }

  lemma {:induction false} RunKeepsInv(s: Sched, es: seq<Event>)
    requires Inv(s)
    ensures Inv(Run(s, es))
    decreases |es|
  {
    if es != [] {
      StepKeepsInv(s, es[0]);
      RunKeepsInv(Apply(s, es[0]), es[1..]);
    }
  }

  /** In every interleaving of posting threads and the loop: each task runs at most once, in post order; and
      while the loop runs and no signal failed, a queued task is never without a wake-up. */
  lemma EveryRunHandsOver(es: seq<Event>)
    ensures var s := Run(START, es);
      && s.posted == s.executed + s.batch + s.queue && s.executed <= s.posted
      && (s.running && s.lost == 0 && s.queue != [] ==> WakeUpComing(s))
  {
    RunKeepsInv(START, es);
  }

  // ---------------------------------------------------------------- nothing is left behind

  /** Steps of threads already in `post`, whether or not their signals get through, and of the loop. */
  predicate Internal(e: Event) { !e.Push? && !e.Stop? }

  /** No step of this kind has an effect any more. */
  ghost predicate Settled(s: Sched) { forall e :: Internal(e) ==> Apply(s, e) == s }

  function Measure(s: Sched): nat {
    4 * |s.signalling| + (if s.pending then 3 else 0)
    + (match s.loop case Idle => 0 case Fired => 2 case Draining => 1) + |s.batch| + |s.queue|
  }

  /** How many of the events had an effect. */
  function Effective(s: Sched, es: seq<Event>): nat
    decreases |es|
  {
    if es == [] then 0 else (if Apply(s, es[0]) != s then 1 else 0) + Effective(Apply(s, es[0]), es[1..])
  }

  /** Nothing queued, or the loop has been told. */
  predicate Noticed(s: Sched) { s.queue == [] || s.pending || s.loop == Fired }

  /** A signal that is given and gets through. */
  predicate Rings(s: Sched, e: Event) { e.Signal? && e.ok && e.thread in s.signalling }

  /** One of the events is such a signal. */
  predicate Wakes(s: Sched, es: seq<Event>)
    decreases |es|
  {
    es != [] && (Rings(s, es[0]) || Wakes(Apply(s, es[0]), es[1..]))
  }

  /** An internal step shortens what is left to do, and makes the queue noticed only by ringing. */
  lemma InternalStep(s: Sched, e: Event)
    requires Inv(s) && s.running && Internal(e)
    ensures var s' := Apply(s, e);
      && Inv(s') && s'.running && s'.posted == s.posted
      && Measure(s') + (if s' != s then 1 else 0) <= Measure(s)
      && (Noticed(s') <==> Noticed(s) || Rings(s, e)) && (!Noticed(s') ==> s'.queue == s.queue)
  {
    StepKeepsInv(s, e);
    if e.Signal? && e.thread in s.signalling {
      assert |s.signalling - {e.thread}| == |s.signalling| - 1;
    }
  }

  /** Without new posts every schedule has at most `Measure` steps with an effect, in whatever order they come and
      whichever signals fail. The queue is noticed at its end exactly if it was at the start or a signal got
      through, and until then nothing touches it. */
  lemma {:induction false} DrainingIsBounded(s: Sched, es: seq<Event>)
    requires Inv(s) && s.running && forall e <- es :: Internal(e)
    ensures Effective(s, es) + Measure(Run(s, es)) <= Measure(s)
    ensures Inv(Run(s, es)) && Run(s, es).running && Run(s, es).posted == s.posted
    ensures Noticed(Run(s, es)) <==> Noticed(s) || Wakes(s, es)
    ensures !Noticed(Run(s, es)) ==> Run(s, es).queue == s.queue
    decreases |es|
  {
    hide Inv, Noticed, Rings, Measure, Apply;
    if es != [] {
      InternalStep(s, es[0]);
      DrainingIsBounded(Apply(s, es[0]), es[1..]);
    }
  }

  /** A settled state has run everything that was ever posted, unless its queue has gone unnoticed. */
  lemma SettledIsDoneIffNoticed(s: Sched)
    requires Inv(s) && s.running && Settled(s)
    ensures s.executed == s.posted <==> Noticed(s)
  {
    assert Internal(Fire) && Internal(Swap) && Internal(Finish) && Internal(RunOne);
    assert Apply(s, Fire) == s && Apply(s, Swap) == s && Apply(s, Finish) == s && Apply(s, RunOne) == s;
    assert s.batch == [] || s.loop != Draining || |Apply(s, RunOne).batch| < |s.batch|;
  }

  /** Every schedule that goes on until nothing can happen any more has run all tasks if, and only if, the queue
      had been noticed when it began or one of the signals given in it got through. */
  lemma DrainsIffNoticed(s: Sched, es: seq<Event>)
    requires Inv(s) && s.running && (forall e <- es :: Internal(e)) && Settled(Run(s, es))
    ensures Run(s, es).executed == s.posted
      <==> s.queue == [] || s.pending || s.loop == Fired || Wakes(s, es)
  {
    hide Inv, Settled, Run;
    DrainingIsBounded(s, es);
    SettledIsDoneIffNoticed(Run(s, es));
  }

  /** Such schedules exist from everywhere: any step with an effect leads closer to a settled state. */
  lemma {:induction false} EveryStateSettles(s: Sched) returns (es: seq<Event>)
    requires Inv(s) && s.running
    ensures (forall e <- es :: Internal(e)) && |es| <= Measure(s) && Settled(Run(s, es))
    decreases Measure(s)
  {
    if e :| Internal(e) && Apply(s, e) != s {
      InternalStep(s, e);
      var rest := EveryStateSettles(Apply(s, e));
      es := [e] + rest;
      assert es[1..] == rest;
    } else {
      es := [];
    }
  }

  /** Who can still ring: without other threads in `post` at that moment nobody can. */
  lemma {:induction false} NobodyRings(s: Sched, es: seq<Event>)
    requires s.signalling == {} && forall e <- es :: Internal(e)
    ensures !Wakes(s, es)
    decreases |es|
  {
    if es != [] {
      assert Internal(es[0]);
      NobodyRings(Apply(s, es[0]), es[1..]);
    }
  }

  /** When one call of `post` loses its signal: the queue is stranded, and stays as it is whatever the loop and
      the other threads in `post` do, unless the loop has been told already or the signal of one of those others
      still gets through. */
  lemma LostSignalStrandsIff(s: Sched, t: Thread, es: seq<Event>)
    requires Inv(s) && s.running && t in s.signalling && forall e <- es :: Internal(e)
    ensures var s1 := Apply(s, Signal(t, false));
      var s' := Run(s1, es);
      var rescued := s.queue == [] || s.pending || s.loop == Fired || Wakes(s1, es);
      && (!rescued ==> s'.queue == s.queue)
      && (Settled(s') ==> (s'.executed == s.posted <==> rescued))
      && (s.signalling == {t} ==> !Wakes(s1, es))
  {
    hide Run, Settled, Measure;
    var s1 := Apply(s, Signal(t, false));
    StepKeepsInv(s, Signal(t, false));
    DrainingIsBounded(s1, es);
    if Settled(Run(s1, es)) { DrainsIffNoticed(s1, es); }
    if s.signalling == {t} { NobodyRings(s1, es); }
  }

  /** A stranded task is not forgotten: the next post whose signal gets through runs it too, before its own. */
  lemma NextPostRescues(s: Sched, t: Thread, task: Task, es: seq<Event>)
    requires Inv(s) && s.running && t !in s.signalling && (forall e <- es :: Internal(e))
    requires Settled(Run(Apply(Apply(s, Push(t, task)), Signal(t, true)), es))
    ensures Run(Apply(Apply(s, Push(t, task)), Signal(t, true)), es).executed == s.posted + [task]
  {
    hide Run, Settled;
    StepKeepsInv(s, Push(t, task));
    StepKeepsInv(Apply(s, Push(t, task)), Signal(t, true));
    DrainsIffNoticed(Apply(Apply(s, Push(t, task)), Signal(t, true)), es);
  }

  /** The shortest run that strands a task: one post, one failed signal. */
  lemma LostSignalStrands()
    ensures var s := Run(START, [Push(1, 7), Signal(1, false)]);
      s.running && s.queue == [7] && s.executed == [] && Settled(s)
  {
    assert [Push(1, 7), Signal(1, false)][1..] == [Signal(1, false)];
    assert [Signal(1, false)][1..] == [];
    var s := Apply(Apply(START, Push(1, 7)), Signal(1, false));
    assert s.signalling == {};
  }

  // ---------------------------------------------------------------- the code

  class IOScheduler {
    var init: bool
    var queueTask: seq<Task>
    var loopThread: Option<Thread>
    /** The async handle's pending flag, and the loop's place. */
    var pending: bool
    ghost var running: bool
    ghost var loop: Loop
    /** What is left of the batch that `on_async` has swapped out. */
    ghost var batch: seq<Task>
    ghost var posted: seq<Task>
    ghost var executed: seq<Task>
    ghost var inlined: seq<Task>
    ghost var lost: nat

    ghost function View(): Sched
      reads this
    {
      Sched(running, queueTask, pending, {}, loop, batch, posted, executed, lost)
    }

    /** As after `init`. */
    constructor ()
      ensures init && loopThread == None && View() == START && inlined == []
    {
      init, queueTask, loopThread, pending := true, [], None, false;
      running, loop, batch, posted, executed, inlined, lost := true, Idle, [], [], [], [], 0;
    }

    /** `f` is None for an empty function object; `ok` is the answer of `uv_async_send`. */
    method Post(f: Option<Task>, self: Thread, ok: bool) returns (ret: int)
      modifies this
      ensures ret == if f.None? || !old(init) then -1 else if ok then 0 else -2
      ensures init == old(init) && loopThread == old(loopThread) && inlined == old(inlined)
      ensures View() == if ret == -1 then old(View())
                        else Apply(Apply(old(View()), Push(self, f.value)), Signal(self, ok))
    {
      if f.None? || !init {
        return -1;
      }
      queueTask := queueTask + [f.value];
      posted := posted + [f.value];
      pending := pending || ok;
      if !ok {
        lost := lost + 1;
        return -2;
      }
      return 0;
    }

    method InLoopThread(self: Thread) returns (b: bool)
      ensures b <==> loopThread == Some(self)
    {
      b := loopThread == Some(self);
    }

    /** The loop thread runs the task at once, ahead of anything queued; any other thread posts it. */
    method Dispatch(f: Option<Task>, self: Thread, ok: bool) returns (ret: int)
      modifies this
      ensures f.None? || !old(init) ==> ret == -1 && View() == old(View()) && inlined == old(inlined)
      ensures f.Some? && old(init) && loopThread == Some(self) ==>
        ret == 0 && View() == old(View()) && inlined == old(inlined) + [f.value]
      ensures f.Some? && old(init) && loopThread != Some(self) ==>
        && ret == (if ok then 0 else -2) && inlined == old(inlined)
        && View() == Apply(Apply(old(View()), Push(self, f.value)), Signal(self, ok))
      ensures init == old(init) && loopThread == old(loopThread)
    {
      if f.None? || !init {
        return -1;
      }
      ret := 0;
      var here := InLoopThread(self);
      if here {
        inlined := inlined + [f.value];
      } else {
        ret := Post(f, self, ok);
      }
    }

    /** What other threads, or the running task itself, post one after the other. */
    method PostAll(calls: seq<PostCall>)
      requires init
      modifies this
      ensures View() == Run(old(View()), Posts(calls)) && init && inlined == old(inlined)
    {
      ghost var s0 := View();
      for i := 0 to |calls|
        invariant init && inlined == old(inlined)
        invariant Run(View(), Posts(calls[i..])) == Run(s0, Posts(calls))
      {
        var call := calls[i];
        ghost var s := View();
        var _ := Post(Some(call.task), call.thread, call.ok);
        assert calls[i..][1..] == calls[i + 1..];
        PostsStep(s, calls[i..]);
      }
    }

    /** From the moment the loop has taken the signal: one swap, then the batch in order. `meanwhile` names what is
        posted while each of its tasks runs; that stays for the next time. */
    method OnAsync(meanwhile: seq<seq<PostCall>>)
      requires init && loop == Fired && batch == [] && |meanwhile| == |queueTask|
      modifies this
      ensures View() == Run(Apply(old(View()), Swap), BatchWith(meanwhile))
      ensures executed == old(executed) + old(queueTask) && queueTask == Tasks(meanwhile)
      ensures init && inlined == old(inlined)
    {
      hide Run, BatchWith, Posts, Tasks;
      var temp := queueTask;
      queueTask := [];
      batch, loop := temp, Draining;
      ghost var s0 := View();
      BatchInOrder(s0, meanwhile);
      assert s0 == Apply(old(View()), Swap) && meanwhile[0..] == meanwhile;
      for i := 0 to |temp|
        invariant init && inlined == old(inlined) && loop == Draining && batch == temp[i..]
        invariant Run(View(), BatchWith(meanwhile[i..])) == Run(s0, BatchWith(meanwhile))
      {
        ghost var s := View();
        executed, batch := executed + [temp[i]], batch[1..];
        ghost var ran := View();
        assert ran == Apply(s, RunOne);
        PostAll(meanwhile[i]);
        PostsOnly(ran, meanwhile[i]);
        assert meanwhile[i..][1..] == meanwhile[i + 1..];
        BatchStep(s, meanwhile[i..]);
      }
      ghost var last := View();
      assert meanwhile[|temp|..] == [] && batch == [];
      BatchEnd(last);
      loop := Idle;
      assert View() == Apply(last, Finish);
    }
  }

  // ---------------------------------------------------------------- a batch, with posts while it runs

  /** One call of `post`, and whether its signal gets through. */
  datatype PostCall = PostCall(thread: Thread, task: Task, ok: bool)

  function Posts(calls: seq<PostCall>): seq<Event> {
    if calls == [] then [] else
    [Push(calls[0].thread, calls[0].task), Signal(calls[0].thread, calls[0].ok)] + Posts(calls[1..])
  }

  /** One task of the batch after the other, each with the posts made while it runs. */
  function BatchWith(meanwhile: seq<seq<PostCall>>): seq<Event> {
    if meanwhile == [] then [Finish] else [RunOne] + (Posts(meanwhile[0]) + BatchWith(meanwhile[1..]))
  }

  function TasksOf(calls: seq<PostCall>): seq<Task> {
    seq(|calls|, i requires 0 <= i < |calls| => calls[i].task)
  }

  function Tasks(meanwhile: seq<seq<PostCall>>): seq<Task> {
    if meanwhile == [] then [] else TasksOf(meanwhile[0]) + Tasks(meanwhile[1..])
  }

  lemma {:induction false} RunAppend(s: Sched, a: seq<Event>, b: seq<Event>)
    ensures Run(s, a + b) == Run(Run(s, a), b)
    decreases |a|
  {
    if a == [] {
      assert a + b == b;
    } else {
      assert (a + b)[1..] == a[1..] + b;
      RunAppend(Apply(s, a[0]), a[1..], b);
    }
  }

  lemma PostsStep(s: Sched, calls: seq<PostCall>)
    requires calls != []
    ensures Run(s, Posts(calls))
         == Run(Apply(Apply(s, Push(calls[0].thread, calls[0].task)), Signal(calls[0].thread, calls[0].ok)),
                Posts(calls[1..]))
  {
    var e, f := Push(calls[0].thread, calls[0].task), Signal(calls[0].thread, calls[0].ok);
    assert [e, f][1..] == [f] && [f][1..] == [];
    RunAppend(s, [e, f], Posts(calls[1..]));
    assert Run(s, [e, f]) == Run(Apply(s, e), [f]) == Run(Apply(Apply(s, e), f), []);
  }

  /** Posts only append to the queue. */
  lemma {:induction false} PostsOnly(s: Sched, calls: seq<PostCall>)
    requires s.signalling == {}
    ensures var s' := Run(s, Posts(calls));
      && s' == s.(queue := s'.queue, posted := s'.posted, pending := s'.pending, lost := s'.lost)
      && s'.queue == s.queue + TasksOf(calls) && s'.posted == s.posted + TasksOf(calls)
    decreases |calls|
  {
    if calls == [] {
      assert s.queue + [] == s.queue && s.posted + [] == s.posted;
    } else {
      var c := calls[0];
      PostsStep(s, calls);
      PostsOnly(Apply(Apply(s, Push(c.thread, c.task)), Signal(c.thread, c.ok)), calls[1..]);
      assert [c.task] + TasksOf(calls[1..]) == TasksOf(calls);
      assert (s.queue + [c.task]) + TasksOf(calls[1..]) == s.queue + TasksOf(calls);
      assert (s.posted + [c.task]) + TasksOf(calls[1..]) == s.posted + TasksOf(calls);
    }
  }

  lemma BatchStep(s: Sched, meanwhile: seq<seq<PostCall>>)
    requires meanwhile != []
    ensures Run(s, BatchWith(meanwhile))
         == Run(Run(Apply(s, RunOne), Posts(meanwhile[0])), BatchWith(meanwhile[1..]))
  {
    var rest := Posts(meanwhile[0]) + BatchWith(meanwhile[1..]);
    assert ([RunOne] + rest)[1..] == rest;
    RunAppend(Apply(s, RunOne), Posts(meanwhile[0]), BatchWith(meanwhile[1..]));
  }

  lemma Associate(a: seq<Task>, b: seq<Task>, c: seq<Task>)
    ensures (a + b) + c == a + (b + c)
  {
  }

  lemma BatchEnd(s: Sched)
    ensures Run(s, BatchWith([])) == Apply(s, Finish)
  {
    assert [Finish][1..] == [];
    assert Run(s, [Finish]) == Run(Apply(s, Finish), []);
  }

  /** Running a swapped batch to its end executes exactly it, in order; what is posted meanwhile queues up behind,
      in order too. */
  lemma {:induction false} BatchInOrder(s: Sched, meanwhile: seq<seq<PostCall>>)
    requires s.loop == Draining && s.signalling == {} && |meanwhile| == |s.batch|
    ensures var s' := Run(s, BatchWith(meanwhile));
      && s'.executed == s.executed + s.batch && s'.batch == [] && s'.loop == Idle
      && s'.queue == s.queue + Tasks(meanwhile) && s'.posted == s.posted + Tasks(meanwhile)
    decreases |meanwhile|
  {
    if meanwhile == [] {
      BatchEnd(s);
      assert s.executed + [] == s.executed && s.queue + [] == s.queue && s.posted + [] == s.posted;
    } else {
      BatchStep(s, meanwhile);
      var ran, here, later := Apply(s, RunOne), TasksOf(meanwhile[0]), Tasks(meanwhile[1..]);
      assert Tasks(meanwhile) == here + later;
      hide Run, BatchWith, Posts, Tasks, TasksOf;
      PostsOnly(ran, meanwhile[0]);
      BatchInOrder(Run(ran, Posts(meanwhile[0])), meanwhile[1..]);
      assert [s.batch[0]] + s.batch[1..] == s.batch;
      Associate(s.executed, [s.batch[0]], s.batch[1..]);
      Associate(s.queue, here, later);
      Associate(s.posted, here, later);
    }
  }
}
