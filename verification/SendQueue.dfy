/** The sending half of a connection: a queue of at most 64 buffers drained through one reused write request. */
module SendQueue {
  import opened Base

  const MAX_SEND_BUF := 64

  /** A buffer handed to `send`, and what the send callback sends in turn if that buffer is dropped. */
  datatype Act = Act(buf: Bytes, onDrop: seq<Act>)

  /** `writing` is what the write request is in flight for; `reused` records a start while it was;
      `refusals` counts failed `uv_write` calls. The three logs say what became of each buffer. */
  datatype Out = Out(
    connected: bool, queue: seq<Bytes>, writing: Option<Bytes>, reused: bool, refusals: nat,
    closing: bool, closePending: bool, closed: nat,
    accepted: seq<Bytes>, completed: seq<Bytes>, dropped: seq<Bytes>)

  const OPEN := Out(true, [], None, false, 0, false, false, 0, [], [], [])

  // ---------------------------------------------------------------- the operations

  /** `send_buf`: `uv_write` of the front; `accepts` is its answer. */
  function Start(o: Out, accepts: bool): Out
    requires o.queue != []
  {
    var o' := o.(reused := o.reused || o.writing.Some?);
    if accepts then o'.(writing := Some(o.queue[0])) else o'.(refusals := o.refusals + 1)
  }

  function AfterSend(o: Out, act: Act, accepts: bool): Out
    decreases act
  {
    if !o.connected then o
    else if |o.queue| >= MAX_SEND_BUF then
      AfterSends(o.(dropped := o.dropped + [act.buf]), act.onDrop, accepts)
    else
      var o' := o.(queue := o.queue + [act.buf], accepted := o.accepted + [act.buf]);
      if o.queue != [] then o' else Start(o', accepts)
  }

  function AfterSends(o: Out, acts: seq<Act>, accepts: bool): Out
    decreases acts
  {
    if acts == [] then o else AfterSends(AfterSend(o, acts[0], accepts), acts[1..], accepts)
  }

  function AfterStop(o: Out): Out {
    if !o.connected then o
    else if !o.closing then o.(connected := false, closing := true, closePending := true)
    else AfterClose(o.(connected := false))
  }

  function AfterClose(o: Out): Out {
    o.(queue := [], closed := o.closed + 1)
  }

  /** The write callback; `acts` is what the send callback sends from inside it. */
  function AfterWrite(o: Out, ok: bool, acts: seq<Act>, accepts: bool): Out {
    var o0 := o.(writing := None);
    if !o.connected then o0 else
    var o1 := AfterSends(o0, acts, accepts);
    if !ok then AfterStop(o1) else
    if o1.queue == [] then o1 else  // popping an empty queue is undefined; NestedSends excludes it
    var o2 := o1.(queue := o1.queue[1..], completed := o1.completed + [o1.queue[0]]);
    if o2.queue == [] then o2 else Start(o2, accepts)
  }

  datatype Event =
    | Send(act: Act, accepts: bool)
    | Written(ok: bool, acts: seq<Act>, accepts: bool)
    | Stop
    | CloseDone

  /** One event; a write callback comes only for a write in flight, a close callback only once per close. */
  function Apply(o: Out, e: Event): Out {
    match e
    case Send(act, accepts) => AfterSend(o, act, accepts)
    case Written(ok, acts, accepts) => if o.writing.Some? then AfterWrite(o, ok, acts, accepts) else o
    case Stop => AfterStop(o)
    case CloseDone => if o.closePending then AfterClose(o.(closePending := false)) else o
  }

  function Run(o: Out, es: seq<Event>): Out
    decreases |es|
  {
    if es == [] then o else Run(Apply(o, es[0]), es[1..])
  }

  // ---------------------------------------------------------------- what every run keeps

  ghost predicate Inv(o: Out) {
    && !o.reused
    && o.closed + (if o.closePending then 1 else 0) + (if o.closing then 0 else 1) == 1
    && o.connected == !o.closing
    && (o.closed > 0 ==> o.queue == [])
    && (o.connected ==> Flowing(o))
  }

  /** While connected: nothing accepted is lost or reordered, the queue is bounded, the write in flight is for
      its front, and the queue stands still exactly when `uv_write` has refused. */
  ghost predicate Flowing(o: Out) {
    && o.accepted == o.completed + o.queue
    && |o.queue| <= MAX_SEND_BUF
    && (o.writing.Some? ==> o.queue != [] && o.writing.value == o.queue[0])
    && (o.queue != [] && o.writing.None? <==> o.refusals > 0)
  }

  /** Inside the write callback: nothing is in flight, and the front is still in the queue. */
  ghost predicate Handling(o: Out) {
    && o.connected && !o.reused && o.writing.None? && o.refusals == 0
    && 0 < |o.queue| <= MAX_SEND_BUF && o.accepted == o.completed + o.queue
  }

  /** With the queue full, a send and all the sends its callback makes change nothing but the drop log. */
  lemma {:induction false} FullDropsAll(o: Out, acts: seq<Act>, accepts: bool)
    requires o.connected && |o.queue| >= MAX_SEND_BUF
    ensures AfterSends(o, acts, accepts) == o.(dropped := AfterSends(o, acts, accepts).dropped)
    decreases acts
  {
    if acts != [] {
      var o0 := o.(dropped := o.dropped + [acts[0].buf]);
      FullDropsAll(o0, acts[0].onDrop, accepts);
      FullDropsAll(AfterSend(o, acts[0], accepts), acts[1..], accepts);
    }
  }

  lemma SendKeepsInv(o: Out, act: Act, accepts: bool)
    requires Inv(o)
    ensures Inv(AfterSend(o, act, accepts))
  {
    if o.connected && |o.queue| >= MAX_SEND_BUF {
      FullDropsAll(o.(dropped := o.dropped + [act.buf]), act.onDrop, accepts);
    } else if o.connected {
      assert o.completed + (o.queue + [act.buf]) == (o.completed + o.queue) + [act.buf];
    }
  }

  /** Sends made from inside the write callback only lengthen the queue behind its front. */
  lemma {:induction false} NestedSends(o: Out, acts: seq<Act>, accepts: bool)
    requires Handling(o)
    ensures var o' := AfterSends(o, acts, accepts);
      && Handling(o') && o.queue <= o'.queue && o'.completed == o.completed
      && (o'.closing, o'.closePending, o'.closed) == (o.closing, o.closePending, o.closed)
    decreases acts
  {
    if acts != [] {
      var act := acts[0];
      if |o.queue| >= MAX_SEND_BUF {
        FullDropsAll(o.(dropped := o.dropped + [act.buf]), act.onDrop, accepts);
      } else {
        assert o.completed + (o.queue + [act.buf]) == (o.completed + o.queue) + [act.buf];
      }
      NestedSends(AfterSend(o, act, accepts), acts[1..], accepts);
    }
  }

  lemma WriteKeepsInv(o: Out, ok: bool, acts: seq<Act>, accepts: bool)
    requires Inv(o) && o.writing.Some?
    ensures Inv(AfterWrite(o, ok, acts, accepts))
  {
    if o.connected {
      NestedSends(o.(writing := None), acts, accepts);
      var o1 := AfterSends(o.(writing := None), acts, accepts);
      assert (o1.completed + [o1.queue[0]]) + o1.queue[1..] == o1.completed + o1.queue;
    }
  }

  lemma {:induction false} RunKeepsInv(o: Out, es: seq<Event>)
    requires Inv(o)
    ensures Inv(Run(o, es))
    decreases |es|
  {
    if es != [] {
      match es[0] {
        case Send(act, accepts) => SendKeepsInv(o, act, accepts);
        case Written(ok, acts, accepts) => if o.writing.Some? { WriteKeepsInv(o, ok, acts, accepts); }
        case Stop =>
        case CloseDone =>
      }
      RunKeepsInv(Apply(o, es[0]), es[1..]);
    }
  }

  /** Any run of sends, nested sends, write completions, stops and closes: the write request is never started
      while in flight, the close callback fires at most once, and until the stop the queue flows. */
  lemma EveryRunFlows(es: seq<Event>)
    ensures var o := Run(OPEN, es);
      && !o.reused && o.closed <= 1
      && (o.connected ==> Flowing(o))
  {
    RunKeepsInv(OPEN, es);
  }

  /** A refused `uv_write` is final: until the connection stops, nothing more is ever written. */
  lemma {:induction false} RefusalIsFinal(o: Out, es: seq<Event>)
    requires Inv(o) && o.connected && o.refusals > 0 && Stop !in es
    ensures var o' := Run(o, es);
      o'.connected && o'.writing.None? && o'.completed == o.completed && o.queue <= o'.queue
    decreases |es|
  {
    if es != [] {
      var o' := Apply(o, es[0]);
      if es[0].Send? {
        SendKeepsInv(o, es[0].act, es[0].accepts);
        if |o.queue| >= MAX_SEND_BUF {
          FullDropsAll(o.(dropped := o.dropped + [es[0].act.buf]), es[0].act.onDrop, es[0].accepts);
        }
      }
      RefusalIsFinal(o', es[1..]);
    }
  }

  // ---------------------------------------------------------------- what becomes of each buffer

  /** One send while connected: behind the others if fewer than 64 are queued, and into the write request if it was
      alone; otherwise dropped, and what its callback sends, with it. */
  lemma SentByCases(o: Out, act: Act, accepts: bool)
    requires o.connected
    ensures var o' := AfterSend(o, act, accepts);
      && (|o.queue| < 64 ==>
            && o'.queue == o.queue + [act.buf] && o'.accepted == o.accepted + [act.buf]
            && o'.dropped == o.dropped && o'.completed == o.completed && o'.connected
            && (o.queue == [] && accepts ==> o'.writing == Some(act.buf))
            && (o.queue != [] ==> o'.writing == o.writing))
      && (|o.queue| >= 64 ==>
            && o'.dropped == o.dropped + AllOf([act])
            && o' == o.(dropped := o'.dropped))
  {
    if |o.queue| >= MAX_SEND_BUF {
      FullDropsInOrder(o.(dropped := o.dropped + [act.buf]), act.onDrop, accepts);
      FullDropsAll(o.(dropped := o.dropped + [act.buf]), act.onDrop, accepts);
      assert [act][1..] == [] && AllOf([]) == [];
      assert AllOf([act]) == [act.buf] + AllOf(act.onDrop);
    }
  }

  lemma UnconnectedSendsNothing(o: Out, act: Act, accepts: bool)
    requires !o.connected
    ensures AfterSend(o, act, accepts) == o
  {
  }

  /** The buffers of these sends and of all sends their callbacks make, in the order in which they are made when
      every one of them is dropped. */
  function AllOf(acts: seq<Act>): seq<Bytes>
    decreases acts
  {
    if acts == [] then [] else [acts[0].buf] + AllOf(acts[0].onDrop) + AllOf(acts[1..])
  }

  lemma {:induction false} FullDropsInOrder(o: Out, acts: seq<Act>, accepts: bool)
    requires o.connected && |o.queue| >= MAX_SEND_BUF
    ensures AfterSends(o, acts, accepts).dropped == o.dropped + AllOf(acts)
    decreases acts
  {
    if acts == [] {
      assert o.dropped + [] == o.dropped;
    } else {
      var o0, o1 := o.(dropped := o.dropped + [acts[0].buf]), AfterSend(o, acts[0], accepts);
      assert o1 == AfterSends(o0, acts[0].onDrop, accepts);
      assert AfterSends(o, acts, accepts) == AfterSends(o1, acts[1..], accepts);
      var first, nested, later := [acts[0].buf], AllOf(acts[0].onDrop), AllOf(acts[1..]);
      assert AllOf(acts) == first + nested + later;
      hide AfterSend, AfterSends, AllOf;
      FullDropsAll(o0, acts[0].onDrop, accepts);
      FullDropsInOrder(o0, acts[0].onDrop, accepts);
      FullDropsInOrder(o1, acts[1..], accepts);
      Associate(o.dropped, first, nested, later);
    }
  }

  lemma Associate(a: seq<Bytes>, b: seq<Bytes>, c: seq<Bytes>, d: seq<Bytes>)
    ensures ((a + b) + c) + d == a + (b + c + d)
  {
  }

  /** The buffers handed in by these sends, given how many are queued before: a send that finds room is one; a send
      that finds none is itself and all that its callback sends. */
  function HandedBy(queued: nat, acts: seq<Act>): seq<Bytes>
    decreases acts
  {
    if acts == [] then []
    else if queued < 64 then [acts[0].buf] + HandedBy(queued + 1, acts[1..])
    else AllOf(acts)
  }

  /** How many buffers have been accepted or dropped, each as often as it was. */
  function Logged(o: Out): multiset<Bytes> { multiset(o.accepted) + multiset(o.dropped) }

  lemma RoomIsUsed(o: Out, act: Act, accepts: bool)
    requires o.connected && |o.queue| < 64
    ensures var o' := AfterSend(o, act, accepts);
      && o'.connected && o'.completed == o.completed && |o'.queue| == |o.queue| + 1
      && Logged(o') == Logged(o) + multiset{act.buf}
  {
    SentByCases(o, act, accepts);
    hide AfterSend;
  }

  lemma FullLogsAll(o: Out, acts: seq<Act>, accepts: bool)
    requires o.connected && |o.queue| >= 64
    ensures var o' := AfterSends(o, acts, accepts);
      && o'.connected && o'.completed == o.completed
      && Logged(o') == Logged(o) + multiset(AllOf(acts))
  {
    FullDropsInOrder(o, acts, accepts);
    FullDropsAll(o, acts, accepts);
    hide AfterSends, AllOf;
  }

  lemma {:induction false} SendsAreKept(o: Out, acts: seq<Act>, accepts: bool)
    requires o.connected
    ensures var o' := AfterSends(o, acts, accepts);
      && o'.connected && o'.completed == o.completed
      && Logged(o') == Logged(o) + multiset(HandedBy(|o.queue|, acts))
    decreases acts
  {
    if acts == [] {
    } else if |o.queue| < 64 {
      var o1, later := AfterSend(o, acts[0], accepts), HandedBy(|o.queue| + 1, acts[1..]);
      assert AfterSends(o, acts, accepts) == AfterSends(o1, acts[1..], accepts);
      assert HandedBy(|o.queue|, acts) == [acts[0].buf] + later;
      hide AfterSend, AfterSends, HandedBy, Logged;
      RoomIsUsed(o, acts[0], accepts);
      SendsAreKept(o1, acts[1..], accepts);
    } else {
      FullLogsAll(o, acts, accepts);
      hide AfterSends, Logged, AllOf;
    }
  }

  /** What the event hands in: a send, or the sends made from inside the write callback. */
  function HandedIn(o: Out, e: Event): seq<Bytes> {
    if !o.connected then []
    else if e.Send? then HandedBy(|o.queue|, [e.act])
    else if e.Written? && o.writing.Some? then HandedBy(|o.queue|, e.acts)
    else []
  }

  /** What the event confirms: a successful write, of the buffer it was for. */
  function Confirmed(o: Out, e: Event): seq<Bytes> {
    if o.connected && e.Written? && e.ok && o.writing.Some? then [o.writing.value] else []
  }

  lemma WrittenByCases(o: Out, ok: bool, acts: seq<Act>, accepts: bool)
    requires Inv(o) && o.connected && o.writing.Some?
    ensures var o' := AfterWrite(o, ok, acts, accepts);
      && o'.connected == ok
      && o'.completed == o.completed + (if ok then [o.writing.value] else [])
      && Logged(o') == Logged(o) + multiset(HandedBy(|o.queue|, acts))
      && (ok && o'.queue != [] && accepts ==> o'.writing == Some(o'.queue[0]))
      && (!ok ==> o'.closePending)
  {
    var o0 := o.(writing := None);
    NestedSends(o0, acts, accepts);
    SendsAreKept(o0, acts, accepts);
    assert o.completed + [] == o.completed;
  }

  lemma StepKeepsLogs(o: Out, e: Event)
    requires Inv(o)
    ensures var o' := Apply(o, e);
      && o'.completed == o.completed + Confirmed(o, e)
      && Logged(o') == Logged(o) + multiset(HandedIn(o, e))
  {
    assert o.completed + [] == o.completed;
    match e
    case Send(act, accepts) =>
      if o.connected {
        assert [act][1..] == [] && AfterSends(AfterSend(o, act, accepts), [], accepts) == AfterSend(o, act, accepts);
        SendsAreKept(o, [act], accepts);
      }
    case Written(ok, acts, accepts) =>
      if o.connected && o.writing.Some? { WrittenByCases(o, ok, acts, accepts); }
    case _ =>
  }

  function AllHandedIn(o: Out, es: seq<Event>): seq<Bytes>
    decreases |es|
  {
    if es == [] then [] else HandedIn(o, es[0]) + AllHandedIn(Apply(o, es[0]), es[1..])
  }

  function AllConfirmed(o: Out, es: seq<Event>): seq<Bytes>
    decreases |es|
  {
    if es == [] then [] else Confirmed(o, es[0]) + AllConfirmed(Apply(o, es[0]), es[1..])
  }

  lemma {:induction false} RunKeepsLogs(o: Out, es: seq<Event>)
    requires Inv(o)
    ensures Run(o, es).completed == o.completed + AllConfirmed(o, es)
    ensures Logged(Run(o, es)) == Logged(o) + multiset(AllHandedIn(o, es))
    decreases |es|
  {
    hide Inv, Apply, HandedIn, Confirmed, Logged;
    if es == [] {
      assert o.completed + [] == o.completed;
    } else {
      var o' := Apply(o, es[0]);
      StepKeepsLogs(o, es[0]);
      assert [es[0]][1..] == [] && Run(o, [es[0]]) == Run(o', []) == o';
      RunKeepsInv(o, [es[0]]);
      RunKeepsLogs(o', es[1..]);
      assert (o.completed + Confirmed(o, es[0])) + AllConfirmed(o', es[1..]) == o.completed + AllConfirmed(o, es);
    }
  }

  /** In every run, every buffer handed in while connected, from inside callbacks too, was accepted or dropped, each
      as often as it was handed in; and those reported as written are those whose writes succeeded, in order. */
  lemma EveryBufferIsAccounted(es: seq<Event>)
    ensures var o := Run(OPEN, es);
      && multiset(o.accepted) + multiset(o.dropped) == multiset(AllHandedIn(OPEN, es))
      && o.completed == AllConfirmed(OPEN, es)
  {
    RunKeepsLogs(OPEN, es);
    hide Run, AllConfirmed;
    assert [] + AllConfirmed(OPEN, es) == AllConfirmed(OPEN, es);
  }

  /** A stop ends it all: the close callback comes, once, and the queue is empty then, whatever was in it. */
  lemma StopCloses(o: Out)
    requires Inv(o) && o.connected
    ensures !AfterStop(o).connected && AfterStop(o).closePending && AfterStop(o).closed == o.closed
    ensures var o' := Apply(AfterStop(o), CloseDone); o'.closed == o.closed + 1 == 1 && o'.queue == []
  {
  }

  // ---------------------------------------------------------------- the code

  class Sender {
    var connected: bool
    var sendBuf: seq<Bytes>
    var closing: bool
    /** The loop's side: the write request in flight, and a close callback still to come. */
    var writing: Option<Bytes>
    var closePending: bool
    ghost var reused: bool
    ghost var refusals: nat
    ghost var closed: nat
    ghost var accepted: seq<Bytes>
    ghost var completed: seq<Bytes>
    ghost var dropped: seq<Bytes>

    ghost function View(): Out
      reads this
    {
      Out(connected, sendBuf, writing, reused, refusals, closing, closePending, closed, accepted, completed, dropped)
    }

    constructor ()
      ensures View() == OPEN
    {
      connected, sendBuf, closing, writing, closePending := true, [], false, None, false;
      reused, refusals, closed, accepted, completed, dropped := false, 0, 0, [], [], [];
    }

    method SendBuf(accepts: bool)
      requires sendBuf != []
      modifies this
      ensures View() == Start(old(View()), accepts)
    {
      reused := reused || writing.Some?;
      if accepts {
        writing := Some(sendBuf[0]);
      } else {
        refusals := refusals + 1;
      }
    }

    method OnSend(act: Act, accepts: bool)
      modifies this
      ensures View() == AfterSend(old(View()), act, accepts)
      ensures old(connected) && |old(sendBuf)| < 64 ==>
        sendBuf == old(sendBuf) + [act.buf] && accepted == old(accepted) + [act.buf] && dropped == old(dropped)
      ensures old(connected) && |old(sendBuf)| >= 64 ==>
        old(dropped) + [act.buf] <= dropped && sendBuf == old(sendBuf) && accepted == old(accepted)
      decreases act
    {
      if !connected {
        return;
      }
      if |sendBuf| >= MAX_SEND_BUF {
        dropped := dropped + [act.buf];
        FullDropsInOrder(View(), act.onDrop, accepts);
        FullDropsAll(View(), act.onDrop, accepts);
        SendCallback(act.onDrop, accepts);
        return;
      }
      var sending := sendBuf != [];
      sendBuf := sendBuf + [act.buf];
      accepted := accepted + [act.buf];
      if !sending {
        SendBuf(accepts);
      }
    }

    /** The user's send callback, which may send. */
    method SendCallback(acts: seq<Act>, accepts: bool)
      modifies this
      ensures View() == AfterSends(old(View()), acts, accepts)
      decreases acts
    {
      if acts != [] {
        OnSend(acts[0], accepts);
        SendCallback(acts[1..], accepts);
      }
    }

    method OnWrite(ok: bool, acts: seq<Act>, accepts: bool)
      requires Inv(View()) && writing.Some?
      modifies this
      ensures View() == AfterWrite(old(View()), ok, acts, accepts)
    {
      writing := None;
      if !connected {
        return;
      }
      NestedSends(View(), acts, accepts);
      SendCallback(acts, accepts);
      if ok {
        completed := completed + [sendBuf[0]];
        sendBuf := sendBuf[1..];
        if sendBuf != [] {
          SendBuf(accepts);
        }
      } else {
        OnStop();
      }
    }

    method OnStop()
      modifies this
      ensures View() == AfterStop(old(View()))
    {
      if !connected {
        return;
      }
      connected := false;
      if !closing {
        closing, closePending := true, true;
      } else {
        OnClose();
      }
    }

    method OnClose()
      modifies this
      ensures View() == AfterClose(old(View()))
    {
      ClearBuf();
      closed := closed + 1;
    }

    method ClearBuf()
      modifies `sendBuf
      ensures sendBuf == []
    {
      while sendBuf != [] {
        sendBuf := sendBuf[1..];
      }
    }
  }
}
