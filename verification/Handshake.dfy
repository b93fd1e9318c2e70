/** The synchronous call: the caller locks its controller, sends, and waits; the loop fills in the reply and
    notifies. `RpcController` with its mutex and condition variable, and every interleaving of the two threads. */
module Handshake {
  import opened Base
  import opened Requests

  datatype Owner = Free | CallerHolds | LoopHolds

  /** The controller's mutex, and whether the caller sleeps on its condition variable. */
  datatype Sync = Sync(owner: Owner, asleep: bool)

  function Locks(s: Sync, who: Owner): Sync { s.(owner := who) }
  function Unlocks(s: Sync): Sync { s.(owner := Free) }
  /** `wait_for`: the mutex is released and the thread asleep in one step. */
  function Sleeps(s: Sync): Sync { Sync(Free, true) }
  function Wakes(s: Sync): Sync { s.(asleep := false) }

  /** The caller: entry inserted, lock taken, request sent, in the wait, woken, back from the wait (`answered`:
      with a code in place at that moment), or back from a send that failed. */
  datatype Caller =
    | Inserted | Locked | Posted | Asleep
    | Awake(timedOut: bool) | Returned(timedOut: bool, answered: bool) | SendFailed

  /** Why the loop notifies: a reply, or the connection closed. */
  datatype Cause = Reply | Closing

  /** The loop: nothing yet, code and response set, mutex held in `notify`, mutex released, signal given. */
  datatype Loop =
    | Nothing | Filled(cause: Cause) | Holding(cause: Cause) | Released(cause: Cause) | Signalled(cause: Cause)

  /** `queued`: the request has been handed to the loop. */
  datatype Call = Call(sync: Sync, caller: Caller, loop: Loop, connected: bool, queued: bool, code: Option<int>)

  const BEGUN := Call(Sync(Free, false), Inserted, Nothing, true, false, None)

  datatype Event =
    | Lock | Send(sending: Sending) | Wait | Timeout | Spurious | Return   // the caller
    | Disconnect | Fill(code: int) | FillClosed                            // the loop
    | NotifyLock | NotifyUnlock | NotifyOne

  predicate MayReturn(c: Call) { c.caller.Awake? && c.sync.owner == Free }

  function Apply(c: Call, e: Event): Call {
    match e
    case Lock =>
      if c.caller == Inserted && c.sync.owner == Free then
        c.(sync := Locks(c.sync, CallerHolds), caller := Locked)
      else c
    case Send(sending) =>  // `send` refuses without a connection
      if c.caller != Locked then c
      else if sending == Accepted && c.connected then c.(caller := Posted, queued := true)
      else c.(sync := Unlocks(c.sync), caller := SendFailed, queued := sending == Unsignalled && c.connected)
    case Wait =>
      if c.caller == Posted then c.(sync := Sleeps(c.sync), caller := Asleep) else c
    case Timeout =>
      if c.caller == Asleep then c.(sync := Wakes(c.sync), caller := Awake(true)) else c
    case Spurious =>
      if c.caller == Asleep then c.(sync := Wakes(c.sync), caller := Awake(false)) else c
    case Return =>  // takes the mutex once more and drops it
      if MayReturn(c) then c.(caller := Returned(c.caller.timedOut, c.code.Some?)) else c
    case Disconnect => c.(connected := false)
    case Fill(code) =>  // a reply is processed only after its request was queued
      if c.loop == Nothing && c.connected && c.queued then
        c.(loop := Filled(Reply), code := Some(code))
      else c
    case FillClosed =>  // `on_close`, which follows the loss of the connection
      if c.loop == Nothing && !c.connected then c.(loop := Filled(Closing), code := Some(ENETWORK)) else c
    case NotifyLock =>
      if c.loop.Filled? && c.sync.owner == Free then
        c.(sync := Locks(c.sync, LoopHolds), loop := Holding(c.loop.cause))
      else c
    case NotifyUnlock =>
      if c.loop.Holding? then c.(sync := Unlocks(c.sync), loop := Released(c.loop.cause)) else c
    case NotifyOne =>
      if !c.loop.Released? then c else
      var c' := c.(loop := Signalled(c.loop.cause));
      if c.sync.asleep then c'.(sync := Wakes(c.sync), caller := Awake(false)) else c'
  }

  function Run(c: Call, es: seq<Event>): Call
    decreases |es|
  {
    if es == [] then c else Run(Apply(c, es[0]), es[1..])
  }

  /** The caller has been in the wait. */
  predicate Entered(c: Call) { c.caller.Asleep? || c.caller.Awake? || c.caller.Returned? }

  /** The loop is past the lock in `notify`. */
  predicate PastLock(c: Call) { c.loop.Holding? || c.loop.Released? || c.loop.Signalled? }

  ghost predicate Inv(c: Call) {
    && (c.sync.owner == CallerHolds <==> c.caller == Locked || c.caller == Posted)
    && (c.sync.owner == LoopHolds <==> c.loop.Holding?)
    && (c.sync.asleep <==> c.caller == Asleep)
    && (c.loop != Nothing <==> c.code.Some?)
    && (c.queued ==> c.caller == Posted || Entered(c) || c.caller == SendFailed)
    && (c.loop != Nothing && c.loop.cause == Reply ==> c.queued)
    && (c.loop != Nothing && c.loop.cause == Closing ==> !c.connected)
    && (PastLock(c) ==> c.caller != Posted)
    && (c.loop.Signalled? ==> c.caller != Asleep)
  }

  lemma {:induction false} RunKeepsInv(c: Call, es: seq<Event>)
    requires Inv(c)
    ensures Inv(Run(c, es))
    decreases |es|
  {
    if es != [] {
      RunKeepsInv(Apply(c, es[0]), es[1..]);
    }
  }

  /** In every interleaving: `notify` gets past the lock for a reply only after the caller has entered the wait,
      with code and response in place, or after a send that only seemed to fail; and once the signal is given, for
      a reply or for a close, the caller is not left sleeping: if it was not yet in the wait, it can no longer
      send. */
  lemma NoReplyIsLost(es: seq<Event>)
    ensures var c := Run(BEGUN, es);
      && (PastLock(c) && c.loop.cause == Reply ==> c.code.Some? && (Entered(c) || (c.caller.SendFailed? && c.queued)))
      && (c.loop.Signalled? ==> c.caller != Asleep)
      && (PastLock(c) && c.loop.cause == Closing ==>
            Entered(c) || (!c.connected && (c.caller.Inserted? || c.caller.Locked? || c.caller.SendFailed?)))
  {
    RunKeepsInv(BEGUN, es);
  }

  // ---------------------------------------------------------------- what a return of 0 is worth

  /** The wait has ended, and not by the time-out. */
  predicate Woken(c: Call) { (c.caller.Awake? || c.caller.Returned?) && !c.caller.timedOut }

  /** One of the events was a spurious wake-up of the sleeping caller. */
  predicate WokenSpuriously(c: Call, es: seq<Event>)
    decreases |es|
  {
    es != [] && ((es[0] == Spurious && c.caller == Asleep) || WokenSpuriously(Apply(c, es[0]), es[1..]))
  }

  lemma {:induction false} CodeStays(c: Call, es: seq<Event>)
    requires c.code.Some?
    ensures Run(c, es).code.Some?
    decreases |es|
  {
    if es != [] {
      CodeStays(Apply(c, es[0]), es[1..]);
    }
  }

  /** As long as nothing has been filled in, the wait is over without a time-out if, and only if, a spurious
      wake-up ended it. */
  lemma {:induction false} UnansweredWakeIff(c: Call, es: seq<Event>)
    requires Inv(c) && Run(c, es).code.None?
    ensures Woken(Run(c, es)) <==> Woken(c) || WokenSpuriously(c, es)
    decreases |es|
  {
    if es != [] {
      var c' := Apply(c, es[0]);
      if c'.code.Some? {
        CodeStays(c', es[1..]);
      }
      UnansweredWakeIff(c', es[1..]);
    }
  }

  lemma {:induction false} RunSnoc(c: Call, es: seq<Event>, e: Event)
    ensures Run(c, es + [e]) == Apply(Run(c, es), e)
    decreases |es|
  {
    if es == [] {
      assert [e][1..] == [];
      assert es + [e] == [e];
    } else {
      assert (es + [e])[0] == es[0] && (es + [e])[1..] == es[1..] + [e];
      RunSnoc(Apply(c, es[0]), es[1..], e);
    }
  }

  /** The event at `i` lets the caller out of the wait, after a spurious wake-up and before anything was filled in. */
  predicate ReturnsEarly(es: seq<Event>, i: nat)
    requires i < |es|
  {
    var c := Run(BEGUN, es[..i]);
    es[i] == Return && MayReturn(c) && c.code.None? && WokenSpuriously(BEGUN, es[..i])
  }

  /** The wait returns 0 with nothing there exactly in the runs in which a spurious wake-up hit the sleeping caller
      and the caller was out again before a reply or a close was filled in: there is no predicate to test. Without
      one, and equally when the reply came before the caller got away, 0 means answered. */
  lemma {:induction false} ReturnsUnansweredIff(es: seq<Event>)
    ensures Run(BEGUN, es).caller == Returned(false, false) <==> exists i :: 0 <= i < |es| && ReturnsEarly(es, i)
    decreases |es|
  {
    if es != [] {
      var n := |es| - 1;
      var c := Run(BEGUN, es[..n]);
      assert es[..n] + [es[n]] == es;
      RunSnoc(BEGUN, es[..n], es[n]);
      RunKeepsInv(BEGUN, es[..n]);
      ReturnsUnansweredIff(es[..n]);
      assert forall i :: 0 <= i < n ==> es[..n][..i] == es[..i];
      assert forall i :: 0 <= i < n ==> (ReturnsEarly(es[..n], i) <==> ReturnsEarly(es, i));
      if c.code.None? {
        UnansweredWakeIff(BEGUN, es[..n]);
      }
      assert es[..n] == es[..|es| - 1];
      assert es[n] == Return && MayReturn(c) && c.code.None? && Woken(c) ==> ReturnsEarly(es, n);
    }
  }

  /** The shortest such run. */
  lemma SpuriousReturnsUnanswered()
    ensures Run(BEGUN, [Lock, Send(Accepted), Wait, Spurious, Return]).caller == Returned(false, false)
  {
    var c := Apply(Apply(Apply(BEGUN, Lock), Send(Accepted)), Wait);
    assert [Lock, Send(Accepted), Wait, Spurious, Return][1..] == [Send(Accepted), Wait, Spurious, Return];
    assert [Send(Accepted), Wait, Spurious, Return][1..] == [Wait, Spurious, Return];
    assert [Wait, Spurious, Return][1..] == [Spurious, Return];
    assert [Spurious, Return][1..] == [Return] && [Return][1..] == [];
    assert Run(c, [Spurious, Return]) == Run(Apply(c, Spurious), [Return]);
    assert Run(Apply(c, Spurious), [Return]) == Run(Apply(Apply(c, Spurious), Return), []);
  }

  // ---------------------------------------------------------------- a reply gets through

  /** The code in place at any time is that of the one reply filled in, or the network error of a close. */
  lemma {:induction false} CodeIsTheFilledOne(c: Call, es: seq<Event>)
    ensures var c' := Run(c, es);
      c'.code == c.code
      || (c'.code.Some? && (Fill(c'.code.value) in es || (c'.code == Some(1006) && FillClosed in es)))
    decreases |es|
  {
    if es != [] {
      CodeIsTheFilledOne(Apply(c, es[0]), es[1..]);
      assert forall e <- es[1..] :: e in es;
    }
  }

  /** And once in place it is not replaced. */
  lemma {:induction false} FirstCodeStays(c: Call, es: seq<Event>)
    requires Inv(c) && c.code.Some?
    ensures Run(c, es).code == c.code
    decreases |es|
  {
    if es != [] {
      FirstCodeStays(Apply(c, es[0]), es[1..]);
    }
  }

  /** The signal ends the wait of a sleeping caller, without a time-out, and that of no other. */
  lemma SignalWakes(c: Call)
    requires Inv(c) && c.loop.Released?
    ensures var c' := Apply(c, NotifyOne);
      && c'.loop == Signalled(c.loop.cause) && c'.code == c.code
      && c'.caller == if c.caller == Asleep then Awake(false) else c.caller
  {
  }

  lemma RunCons(c: Call, e: Event, es: seq<Event>)
    ensures Run(c, [e] + es) == Run(Apply(c, e), es)
  {
    assert ([e] + es)[1..] == es;
  }

  /** The way of a reply, from every state in which the caller sleeps and the loop has nothing yet: filled in,
      notified, and the caller out of the wait with 0 and that very code. */
  lemma ReplyGetsThrough(c: Call, code: int)
    requires Inv(c) && c.caller == Asleep && c.loop == Nothing && c.connected && c.queued
    ensures var c' := Run(c, [Fill(code)] + ([NotifyLock] + ([NotifyUnlock] + ([NotifyOne] + ([Return] + [])))));
      c'.caller == Returned(false, true) && c'.code == Some(code) && c'.sync == Sync(Free, false)
  {
    var c1 := Apply(c, Fill(code));
    var c2 := Apply(c1, NotifyLock);
    var c3 := Apply(c2, NotifyUnlock);
    var c4 := Apply(c3, NotifyOne);
    var c5 := Apply(c4, Return);
    assert c5.caller == Returned(false, true) && c5.code == Some(code) && c5.sync == Sync(Free, false);
    hide Apply, Run;
    RunCons(c, Fill(code), [NotifyLock] + ([NotifyUnlock] + ([NotifyOne] + ([Return] + []))));
    RunCons(c1, NotifyLock, [NotifyUnlock] + ([NotifyOne] + ([Return] + [])));
    RunCons(c2, NotifyUnlock, [NotifyOne] + ([Return] + []));
    RunCons(c3, NotifyOne, [Return] + []);
    RunCons(c4, Return, []);
    RunNothing(c5);
  }

  /** And the way of a close: the same, with the network error. */
  lemma CloseGetsThrough(c: Call)
    requires Inv(c) && c.caller == Asleep && c.loop == Nothing
    ensures var c' := Run(Apply(c, Disconnect),
                          [FillClosed] + ([NotifyLock] + ([NotifyUnlock] + ([NotifyOne] + ([Return] + [])))));
      c'.caller == Returned(false, true) && c'.code == Some(1006) && c'.sync == Sync(Free, false)
  {
    var c0 := Apply(c, Disconnect);
    var c1 := Apply(c0, FillClosed);
    var c2 := Apply(c1, NotifyLock);
    var c3 := Apply(c2, NotifyUnlock);
    var c4 := Apply(c3, NotifyOne);
    var c5 := Apply(c4, Return);
    assert c5.caller == Returned(false, true) && c5.code == Some(1006) && c5.sync == Sync(Free, false);
    hide Apply, Run;
    RunCons(c0, FillClosed, [NotifyLock] + ([NotifyUnlock] + ([NotifyOne] + ([Return] + []))));
    RunCons(c1, NotifyLock, [NotifyUnlock] + ([NotifyOne] + ([Return] + [])));
    RunCons(c2, NotifyUnlock, [NotifyOne] + ([Return] + []));
    RunCons(c3, NotifyOne, [Return] + []);
    RunCons(c4, Return, []);
    RunNothing(c5);
  }

  lemma RunNothing(c: Call)
    ensures Run(c, []) == c
  {
  }

  /** What the caller does, from every state it can be in: it gets the free mutex; it keeps it through a send that
      succeeds, which takes a connection, and drops it otherwise; it gives it up to sleep; and a time-out or a
      return to the free mutex ends the wait, with -1 exactly after a time-out. */
  lemma CallerByCases(c: Call, sending: Sending)
    requires Inv(c)
    ensures c.caller == Inserted && c.sync.owner == Free ==>
      Apply(c, Lock) == c.(sync := Sync(CallerHolds, false), caller := Locked)
    ensures c.caller == Locked && c.connected && sending == Accepted ==>
      Apply(c, Send(sending)) == c.(caller := Posted, queued := true)
    ensures c.caller == Locked && !(c.connected && sending == Accepted) ==>
      Apply(c, Send(sending))
      == c.(sync := Sync(Free, false), caller := SendFailed, queued := c.connected && sending == Unsignalled)
    ensures c.caller == Posted ==> Apply(c, Wait) == c.(sync := Sync(Free, true), caller := Asleep)
    ensures c.caller == Asleep ==> Apply(c, Timeout) == c.(sync := c.sync.(asleep := false), caller := Awake(true))
    ensures c.caller.Awake? && c.sync.owner == Free ==>
      Apply(c, Return) == c.(caller := Returned(c.caller.timedOut, c.code.Some?))
  {
  }

  // ---------------------------------------------------------------- the code

  class RpcController {
    var ec: int
    var text: Bytes
    /** Whether a callback is set, and whether there is a response object to fill. */
    var hasDone: bool
    var hasResponse: bool
    var sync: Sync
    /** The code shown at each callback or notification so far. */
    ghost var fired: seq<int>

    constructor (hasDone: bool, hasResponse: bool)
      ensures ec == 0 && text == [] && this.hasDone == hasDone && this.hasResponse == hasResponse
      ensures sync == Sync(Free, false) && fired == []
    {
      ec, text, sync, fired := 0, [], Sync(Free, false), [];
      this.hasDone, this.hasResponse := hasDone, hasResponse;
    }

    /** A lock is granted only while the mutex is free. */
    method Lock(who: Owner)
      requires sync.owner == Free && who != Free
      modifies `sync
      ensures sync == Locks(old(sync), who)
    {
      sync := sync.(owner := who);
    }

    method Unlock()
      requires sync.owner != Free
      modifies `sync
      ensures sync == Unlocks(old(sync))
    {
      sync := sync.(owner := Free);
    }

    /** The first half of `wait`, on a mutex the caller has locked before. */
    method Wait()
      requires sync.owner == CallerHolds
      modifies `sync
      ensures sync == Sleeps(old(sync))
    {
      sync := Sync(Free, true);
    }

    /** The second half: out of the sleep for whatever reason, once the mutex can be had again. */
    method WakeUp(timedOut: bool) returns (ret: int)
      requires sync.owner == Free
      modifies `sync
      ensures sync == Wakes(old(sync)) && ret == if timedOut then -1 else 0
    {
      sync := sync.(asleep := false);
      ret := if timedOut then -1 else 0;
    }

    /** `notify`: lock, unlock, signal. While the caller holds the mutex it cannot begin. */
    method Notify()
      requires sync.owner == Free
      modifies `sync, `fired
      ensures sync == Wakes(Unlocks(Locks(old(sync), LoopHolds)))
      ensures fired == old(fired) + [ec]
    {
      Lock(LoopHolds);
      Unlock();
      sync := sync.(asleep := false);
      fired := fired + [ec];
    }

    /** The user's callback. */
    method Done()
      requires hasDone
      modifies `fired
      ensures fired == old(fired) + [ec]
    {
      fired := fired + [ec];
    }
  }
}
