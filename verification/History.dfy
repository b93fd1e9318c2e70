/** What the events of a run say about the state they lead to: where every call, answer and completion comes from,
    and that the events of an undisturbed call or notification do lead to its completion. */
module History {
  import opened Base
  import opened Requests
  import opened Protocol

  // ---------------------------------------------------------------- calls

  /** The begins that had an effect, in order. */
  ghost function Begun(w: World, es: seq<Event>): seq<Event>
    decreases |es|
  {
    if es == [] then [] else
    (if Begins(w.c, es[0]) then [es[0]] else []) + Begun(Apply(w, es[0]), es[1..])
  }

  /** `call_method` gets as far as taking an id: connected, and a callback where there must be one. */
  predicate Begins(c: Client, e: Event) {
    e.Begin? && c.open && (e.methodName == NOTIFY ==> e.async)
  }

  /** The call has the service, method, message and kind that its caller gave. */
  predicate AsGiven(k: Call, e: Event) {
    e.Begin? && k.service == e.service && k.methodName == e.methodName && k.body == e.body && k.async == e.async
  }

  lemma BeginTakesNextId(w: World, e: Event)
    requires Ids(w.c) && MayIssue(w.c, e) && Begins(w.c, e)
    ensures var w' := Apply(w, e); var id := (w.c.issued + 1) % TWO_32;
      && w'.c.issued == w.c.issued + 1 && id !in w.c.calls
      && In(w'.c, id, Phase.Begun) && AsGiven(w'.c.calls[id], e)
  {
    FreshId(w.c);
  }

  lemma BeginKeepsGiven(c: Client, e: Event, id: Id, given: Event)
    requires Ids(c) && MayIssue(c, e) && e.Begin? && id in c.calls && AsGiven(c.calls[id], given)
    ensures id in ClientAfter(c, e).calls && AsGiven(ClientAfter(c, e).calls[id], given)
  {
    FreshId(c);
    hide Ids;
  }

  lemma ClientKeepsGiven(c: Client, e: Event, id: Id, given: Event)
    requires Ids(c) && MayIssue(c, e) && id in c.calls && AsGiven(c.calls[id], given)
    ensures id in ClientAfter(c, e).calls && AsGiven(ClientAfter(c, e).calls[id], given)
  {
    if e.Begin? {
      BeginKeepsGiven(c, e, id, given);
    } else {
      hide Ids, MayIssue, AfterBegin, Insert, Removed;
    }
  }

  /** No later event changes what a call was begun with. */
  lemma StepKeepsGiven(w: World, e: Event, id: Id, given: Event)
    requires Ids(w.c) && MayIssue(w.c, e) && id in w.c.calls && AsGiven(w.c.calls[id], given)
    ensures id in Apply(w, e).c.calls && AsGiven(Apply(w, e).c.calls[id], given)
  {
    ClientKeepsGiven(w.c, e, id, given);
    hide Ids, ClientAfter, AsGiven, Decide, Registered, WireReq, MayIssue;
    if e.Handle? {
      HandleKeepsPhase(w, e.resp, e.decodes, id);
    }
    hide AfterResponseTo;
  }

  lemma {:induction false} RunKeepsGiven(w: World, es: seq<Event>, id: Id, given: Event)
    requires Inv(w) && Run(w, es).c.issued <= TWO_32 && id in w.c.calls && AsGiven(w.c.calls[id], given)
    ensures id in Run(w, es).c.calls && AsGiven(Run(w, es).c.calls[id], given)
    decreases |es|
  {
    hide Requested, Correlated, Agreement, Ids, Partition, Marks, OneMarkPerService, Leftovers, Apply, ClientAfter,
      AsGiven;
    if es != [] {
      IssuedGrows(Apply(w, es[0]), es[1..]);
      IssuedByStep(w, es[0]);
      StepKeepsInv(w, es[0]);
      StepKeepsGiven(w, es[0], id, given);
      RunKeepsGiven(Apply(w, es[0]), es[1..], id, given);
    }
  }
  /** The call of this number is that of the event. */
  predicate CallIs(c: Client, number: nat, e: Event) {
    number % TWO_32 in c.calls && AsGiven(c.calls[number % TWO_32], e)
  }

  /** The calls numbered from `first` on are those of the events, in order. */
  ghost predicate AsBegun(c: Client, first: nat, begun: seq<Event>) {
    forall k :: 0 <= k < |begun| ==> CallIs(c, first + k, begun[k])
  }

  lemma AsBegunCons(c: Client, first: nat, e: Event, begun: seq<Event>)
    requires AsBegun(c, first + 1, begun) && CallIs(c, first, e)
    ensures AsBegun(c, first, [e] + begun)
  {
    hide CallIs;
    forall k | 0 <= k < |[e] + begun| ensures CallIs(c, first + k, ([e] + begun)[k]) {
      if k > 0 {
        assert CallIs(c, first + 1 + (k - 1), begun[k - 1]);
      }
    }
  }

  lemma InvIds(w: World)
    requires Inv(w)
    ensures Ids(w.c)
  {
    hide Requested, Correlated, Agreement;
  }

  /** A begin at the front of a run: its call is there at the end. */
  lemma BegunStays(w: World, e: Event, rest: seq<Event>)
    requires Inv(w) && MayIssue(w.c, e) && Begins(w.c, e) && Inv(Apply(w, e))
    requires Run(Apply(w, e), rest).c.issued <= TWO_32
    ensures CallIs(Run(Apply(w, e), rest).c, w.c.issued + 1, e) && Apply(w, e).c.issued == w.c.issued + 1
  {
    InvIds(w);
    hide Inv, Ids, Run, Apply, Begins, MayIssue, AsGiven;
    BeginTakesNextId(w, e);
    RunKeepsGiven(Apply(w, e), rest, (w.c.issued + 1) % TWO_32, e);
  }

  /** The n-th call that was begun has the n-th id, and still has what its caller gave: nothing is mixed up, from
      the beginning to the end of any run. */
  lemma {:induction false} CallsAreAsBegun(w: World, es: seq<Event>)
    requires Inv(w) && Run(w, es).c.issued <= TWO_32
    ensures Run(w, es).c.issued == w.c.issued + |Begun(w, es)|
    ensures AsBegun(Run(w, es).c, w.c.issued + 1, Begun(w, es))
    decreases |es|
  {
    hide Inv, Apply, ClientAfter, AsGiven, Begins, CallIs;
    if es != [] {
      var e, w' := es[0], Apply(w, es[0]);
      IssuedGrows(w', es[1..]);
      IssuedByStep(w, e);
      StepKeepsInv(w, e);
      CallsAreAsBegun(w', es[1..]);
      hide AsBegun;
      if Begins(w.c, e) {
        BegunStays(w, e, es[1..]);
        AsBegunCons(Run(w, es).c, w.c.issued + 1, e, Begun(w', es[1..]));
      } else {
        NoBeginNoIssue(w, e);
        assert Begun(w, es) == Begun(w', es[1..]);
      }
    }
  }

  lemma NoBeginNoIssue(w: World, e: Event)
    requires !Begins(w.c, e)
    ensures Apply(w, e).c.issued == w.c.issued
  {
    IssuedByStep(w, e);
  }

  /** What a 64-byte field keeps of a name. */
  predicate Cut(wire: Bytes, name: Bytes) { wire <= name && |wire| == if |name| <= 63 then |name| else 63 }

  /** A request says what its caller asked for. */
  predicate Carries(req: Req, e: Event) {
    e.Begin? && Cut(req.service, e.service) && Cut(req.methodName, e.methodName) && req.body == e.body
  }

  lemma GenuineCarries(c: Client, req: Req, e: Event)
    requires Genuine(c, req) && AsGiven(c.calls[req.id], e)
    ensures Carries(req, e)
  {
  }

  lemma RequestIsGenuine(w: World, req: Req, svc: nat)
    requires Requested(w.services, w.c, w.toServer, w.s.jobs, w.s.answers)
    requires req in w.toServer || Job(req, svc) in w.s.jobs || (req.id in w.s.answers && w.s.answers[req.id].req == req)
    ensures Genuine(w.c, req)
  {
    hide Genuine, FindSvc;
  }

  /** The place of an id among the calls begun. */
  function PlaceOf(id: Id): nat { if id == 0 then TWO_32 - 1 else id - 1 }

  lemma IdsHavePlaces(c: Client, id: Id, begun: seq<Event>)
    requires Ids(c) && id in c.calls && c.issued == |begun| && AsBegun(c, 1, begun)
    ensures PlaceOf(id) < |begun| && AsGiven(c.calls[id], begun[PlaceOf(id)])
  {
    var k := PlaceOf(id);
    assert k < c.issued && (1 + k) % TWO_32 == id;
    hide AsGiven, Ids;
    assert CallIs(c, 1 + k, begun[k]);
  }

  lemma GenuineIsAsAsked(w: World, req: Req, begun: seq<Event>)
    requires Ids(w.c) && Genuine(w.c, req) && w.c.issued == |begun| && AsBegun(w.c, 1, begun)
    ensures PlaceOf(req.id) < |begun| && Carries(req, begun[PlaceOf(req.id)])
  {
    hide Ids, AsBegun, AsGiven, Carries;
    IdsHavePlaces(w.c, req.id, begun);
    GenuineCarries(w.c, req, begun[PlaceOf(req.id)]);
  }

  /** Every request on its way to the server, being executed or answered there, in any run, is the one that the
      caller of that number asked for: names cut to 63 bytes, message unchanged. */
  lemma RequestsAreAsAsked(services: seq<Service>, es: seq<Event>, req: Req, svc: nat)
    requires Run(Start(services), es).c.issued <= TWO_32
    requires var w := Run(Start(services), es);
      req in w.toServer || Job(req, svc) in w.s.jobs || (req.id in w.s.answers && w.s.answers[req.id].req == req)
    ensures var begun := Begun(Start(services), es);
      PlaceOf(req.id) < |begun| && Carries(req, begun[PlaceOf(req.id)])
  {
    var w := Run(Start(services), es);
    Reachable(services, es);
    StartIsInv(services);
    CallsAreAsBegun(Start(services), es);
    hide Run, Begun, Carries, AsBegun, Genuine, PlaceOf;
    RequestIsGenuine(w, req, svc) by { hide ClientInv, Correlated, Agreement, Requested; }
    GenuineIsAsAsked(w, req, Begun(Start(services), es)) by { hide Partition, Marks, Leftovers, Requested, Correlated; }
  }

  lemma StartIsInv(services: seq<Service>)
    ensures Inv(Start(services))
  {
  }

  // ---------------------------------------------------------------- answers and completions

  /** A service finished the request with this result, or it was rejected for this reason. */
  ghost predicate AnswerFrom(services: seq<Service>, past: seq<Event>, a: Answer) {
    || (exists svc, failed ::
          Finish(Job(a.req, svc), failed, a.body) in past && a.code == if failed then 1005 else 0)
    || (exists fate ::
          && Serve(a.req, fate) in past && a.body == []
          && Decide(services, a.req.service, a.req.methodName, a.req.body, fate) == Reject(a.code))
  }

  /** A response was handled with this body, and decoded or not as the completion says. */
  ghost predicate OutcomeFrom(past: seq<Event>, id: Id, o: Outcome) {
    match o
    case NetworkError => Close in past
    case Outcome(ec, body, origin, decodes) =>
      && (exists code ::
            && Handle(Resp(id, code, body, origin), decodes) in past
            && ec == if body != [] && !decodes then 1004 else code)
      && (origin.Pushed? ==> PickNotify(id, body) in past)
  }

  /** Every answer, every notification on its way, and every completion has its events. */
  ghost predicate Accounted(w: World, past: seq<Event>) {
    && (forall id <- w.s.answers :: AnswerFrom(w.services, past, w.s.answers[id]))
    && (forall p <- w.s.outbox :: PickNotify(p.id, p.body) in past)
    && (forall r <- w.toClient :: r.origin.Pushed? ==> PickNotify(r.id, r.body) in past)
    && (forall id, o :: o in FiredBy(w.c, id) ==> OutcomeFrom(past, id, o))
  }

  lemma PastGrows(services: seq<Service>, past: seq<Event>, e: Event)
    ensures forall a :: AnswerFrom(services, past, a) ==> AnswerFrom(services, past + [e], a)
    ensures forall id, o :: OutcomeFrom(past, id, o) ==> OutcomeFrom(past + [e], id, o)
    ensures forall f <- past :: f in past + [e]
    ensures e in past + [e]
  {
    hide Decide;
  }

  /** A step that answers and completes nothing, and sends no notification. */
  ghost predicate Plain(w: World, w': World) {
    && w'.services == w.services && w'.s.answers == w.s.answers
    && w'.s.outbox <= w.s.outbox && w'.toClient <= w.toClient
    && forall id, o :: o in FiredBy(w'.c, id) ==> o in FiredBy(w.c, id)
  }

  lemma PlainKeepsAccount(w: World, w': World, past: seq<Event>, e: Event)
    requires Accounted(w, past) && Plain(w, w')
    ensures Accounted(w', past + [e])
  {
    PastGrows(w.services, past, e);
    hide AnswerFrom, OutcomeFrom, FiredBy;
  }

  lemma RespondKeepsAccount(w: World, req: Req, code: int, body: Bytes, past: seq<Event>, e: Event)
    requires Accounted(w, past) && AnswerFrom(w.services, past + [e], Answer(req, code, body))
    ensures Accounted(Respond(w, req, code, body), past + [e])
  {
    PastGrows(w.services, past, e);
    hide AnswerFrom, OutcomeFrom, FiredBy;
  }

  lemma RejectIsAccounted(services: seq<Service>, req: Req, fate: Fate, code: int, past: seq<Event>)
    requires Decide(services, req.service, req.methodName, req.body, fate) == Reject(code)
    ensures AnswerFrom(services, past + [Serve(req, fate)], Answer(req, code, []))
  {
    hide Decide;
    assert Serve(req, fate) in past + [Serve(req, fate)];
  }

  lemma FinishIsAccounted(services: seq<Service>, job: Job, failed: bool, body: Bytes, past: seq<Event>)
    ensures AnswerFrom(services, past + [Finish(job, failed, body)],
                       Answer(job.req, if failed then EMETHODCALL else ENOERROR, body))
  {
    hide Decide;
    assert Finish(Job(job.req, job.svc), failed, body) in past + [Finish(job, failed, body)];
  }

  lemma TakingIsAccounted(w: World, req: Req, past: seq<Event>)
    requires Accounted(w, past)
    ensures Accounted(w.(toServer := w.toServer - multiset{req}), past)
  {
    hide AnswerFrom, OutcomeFrom;
  }

  lemma ServeKeepsAccount(w: World, req: Req, fate: Fate, past: seq<Event>)
    requires Accounted(w, past)
    ensures Accounted(Apply(w, Serve(req, fate)), past + [Serve(req, fate)])
  {
    var e, d := Serve(req, fate), Decide(w.services, req.service, req.methodName, req.body, fate);
    hide Decide, Accounted, FiredBy, AnswerFrom;
    if w.s.open && req in w.toServer && d.Reject? {
      TakingIsAccounted(w, req, past);
      RejectIsAccounted(w.services, req, fate, d.code, past);
      RespondKeepsAccount(w.(toServer := w.toServer - multiset{req}), req, d.code, [], past, e);
    } else {
      PlainKeepsAccount(w, Apply(w, e), past, e);
    }
  }

  lemma FinishKeepsAccount(w: World, job: Job, failed: bool, body: Bytes, past: seq<Event>)
    requires Accounted(w, past)
    ensures Accounted(Apply(w, Finish(job, failed, body)), past + [Finish(job, failed, body)])
  {
    var e := Finish(job, failed, body);
    hide AnswerFrom, OutcomeFrom, FiredBy;
    if job in w.s.jobs {
      FinishIsAccounted(w.services, job, failed, body, past);
      RespondKeepsAccount(w.(s := w.s.(jobs := w.s.jobs - multiset{job})), job.req,
                          if failed then EMETHODCALL else ENOERROR, body, past, e);
    } else {
      PlainKeepsAccount(w, w, past, e);
    }
  }

  lemma PickKeepsAccount(w: World, id: Id, body: Bytes, past: seq<Event>)
    requires Accounted(w, past)
    ensures Accounted(Apply(w, PickNotify(id, body)), past + [PickNotify(id, body)])
  {
    PastGrows(w.services, past, PickNotify(id, body));
    hide AnswerFrom, OutcomeFrom, FiredBy;
  }

  lemma PushKeepsAccount(w: World, p: Push, past: seq<Event>)
    requires Accounted(w, past)
    ensures Accounted(Apply(w, PushNotify(p)), past + [PushNotify(p)])
  {
    PastGrows(w.services, past, PushNotify(p));
    hide AnswerFrom, OutcomeFrom, FiredBy;
  }

  lemma HandledIsAccounted(r: Resp, decodes: bool, past: seq<Event>)
    requires r.origin.Pushed? ==> PickNotify(r.id, r.body) in past
    ensures OutcomeFrom(past + [Handle(r, decodes)], r.id, OutcomeOf(r, decodes))
  {
    assert Handle(Resp(r.id, r.code, r.body, r.origin), decodes) in past + [Handle(r, decodes)];
  }

  lemma HandleKeepsAccount(w: World, r: Resp, decodes: bool, past: seq<Event>)
    requires Accounted(w, past)
    ensures Accounted(Apply(w, Handle(r, decodes)), past + [Handle(r, decodes)])
  {
    var e := Handle(r, decodes);
    PastGrows(w.services, past, e);
    CompletionAdds(w.c, r.id, OutcomeOf(r, decodes));
    if r in w.toClient {
      HandledIsAccounted(r, decodes, past);
    }
    hide AnswerFrom, OutcomeFrom, FiredBy, AfterResponseTo, OutcomeOf;
  }

  lemma CloseKeepsAccount(w: World, past: seq<Event>)
    requires Accounted(w, past)
    ensures Accounted(Apply(w, Close), past + [Close])
  {
    PastGrows(w.services, past, Close);
    assert OutcomeFrom(past + [Close], 0, NetworkError);
    hide AnswerFrom;
  }

  /** What is left: the steps of a call, losses, and the server's close. */
  lemma OtherKeepsAccount(w: World, e: Event, past: seq<Event>)
    requires Accounted(w, past) && Ids(w.c) && MayIssue(w.c, e)
    requires !e.Serve? && !e.Finish? && !e.PickNotify? && !e.PushNotify? && !e.Handle? && !e.Close?
    ensures Accounted(Apply(w, e), past + [e])
  {
    FiresNothing(w, e);
    hide Accounted, FiredBy, Ids, ClientAfter, WireReq, MayIssue;
    PlainKeepsAccount(w, Apply(w, e), past, e);
  }

  lemma FiresNothing(w: World, e: Event)
    requires Ids(w.c) && !e.Handle? && !e.Close?
    ensures forall id, o :: o in FiredBy(Apply(w, e).c, id) ==> o in FiredBy(w.c, id)
  {
    hide Decide, Registered, Repeats, WireReq, AfterWithdraw, AfterUnmark;
    FiresNothingLate(w.c, e);
  }

  lemma FiresNothingLate(c: Client, e: Event)
    ensures e.Unmark? ==> AfterUnmark(c, e.id).fired == c.fired
    ensures e.Withdraw? ==> AfterWithdraw(c, e.id).fired == c.fired
  {
  }

  lemma StepKeepsAccount(w: World, e: Event, past: seq<Event>)
    requires Accounted(w, past) && Ids(w.c) && MayIssue(w.c, e)
    ensures Accounted(Apply(w, e), past + [e])
  {
    hide Accounted, Apply, Ids, MayIssue;
    match e
    case Serve(req, fate) => ServeKeepsAccount(w, req, fate, past);
    case Finish(job, failed, body) => FinishKeepsAccount(w, job, failed, body, past);
    case PickNotify(id, body) => PickKeepsAccount(w, id, body, past);
    case PushNotify(p) => PushKeepsAccount(w, p, past);
    case Handle(r, decodes) => HandleKeepsAccount(w, r, decodes, past);
    case Close => CloseKeepsAccount(w, past);
    case _ => OtherKeepsAccount(w, e, past);
  }

  lemma {:induction false} RunKeepsAccount(w: World, es: seq<Event>, past: seq<Event>)
    requires Inv(w) && Accounted(w, past) && Run(w, es).c.issued <= TWO_32
    ensures Accounted(Run(w, es), past + es)
    decreases |es|
  {
    hide Requested, Correlated, Agreement, Ids, Partition, Marks, OneMarkPerService, Leftovers, Apply, ClientAfter,
      Accounted;
    if es == [] {
      assert past + [] == past;
    } else {
      IssuedGrows(Apply(w, es[0]), es[1..]);
      IssuedByStep(w, es[0]);
      StepKeepsInv(w, es[0]);
      StepKeepsAccount(w, es[0], past);
      RunKeepsAccount(Apply(w, es[0]), es[1..], past + [es[0]]);
      assert past + [es[0]] + es[1..] == past + es;
    }
  }

  /** In every run: an answer has the code and body with which a service finished that very request, or the code of
      its rejection; a completion by a response has that response's body and, unless there was a body that could
      not be decoded, its code; a notification has the body the service gave it; and the network error takes a
      close. */
  lemma EverythingHasItsEvents(services: seq<Service>, es: seq<Event>)
    requires Run(Start(services), es).c.issued <= TWO_32
    ensures Accounted(Run(Start(services), es), es)
  {
    StartIsInv(services);
    hide Run;
    RunKeepsAccount(Start(services), es, []);
    assert [] + es == es;
  }

  // ---------------------------------------------------------------- the way of a call

  /** A call without notify always gets its entry in. */
  lemma PlainCallGetsIn(w: World, id: Id)
    requires In(w.c, id, Phase.Begun) && !w.c.calls[id].Notify()
    ensures var w' := Apply(w, Enter(id));
      && w' == w.(c := w'.c) && w'.c.open == w.c.open
      && w'.c.calls == w.c.calls[id := w.c.calls[id].(phase := Entered)]
      && w'.c.table == w.c.table[id := Entry(0, [])] && FiredBy(w'.c, id) == []
  {
    InsertRefusesOnlyRepeats(w.c.table, id, EntryOf(w.c.calls[id]));
  }

  /** A notify call does exactly if the client has no marked entry for that name. */
  lemma NotifyCallGetsInIff(w: World, id: Id)
    requires In(w.c, id, Phase.Begun) && w.c.calls[id].Notify()
    ensures var w' := Apply(w, Enter(id)); var name := w.c.calls[id].service;
      && w' == w.(c := w'.c) && w'.c.open == w.c.open
      && (In(w'.c, id, Entered) <==>
            forall other <- w.c.table :: w.c.table[other].ec != 0 ==> w.c.table[other].text != name)
      && (In(w'.c, id, Entered) ==>
            && w'.c.calls == w.c.calls[id := w.c.calls[id].(phase := Entered)]
            && w'.c.table == w.c.table[id := Entry(ENOTIFY_MARK, name)] && FiredBy(w'.c, id) == [])
  {
    InsertRefusesOnlyRepeats(w.c.table, id, EntryOf(w.c.calls[id]));
  }

  /** A send succeeds exactly if the client is connected and the connection accepts; the request of the call, and
      nothing else, goes on the wire exactly if the connection has it, whatever the caller is told. */
  lemma SentByCases(w: World, id: Id, how: Sending)
    requires In(w.c, id, Entered)
    ensures var w' := Apply(w, Transmit(id, how)); var k := w.c.calls[id];
      var req := Req(id, WireName(k.service), WireName(k.methodName), k.body);
      && In(w'.c, id, if w.c.open && how == Accepted then Sent else if k.async then Failing else Over)
      && w'.toServer == w.toServer + (if w.c.open && how != Declined then multiset{req} else multiset{})
      && w' == w.(c := w'.c, toServer := w'.toServer) && w'.c == w.c.(calls := w'.c.calls)
  {
    assert w.toServer + multiset{} == w.toServer;
  }

  /** A closed client handles no response; a closed server serves no request and looks up no notification. */
  lemma ClosedSidesAreDeaf(w: World, r: Resp, decodes: bool, req: Req, fate: Fate, id: Id, body: Bytes)
    ensures w.c.open ==> !Apply(w, Close).c.open && Apply(w, Close).c.table == map[]
    ensures !Apply(w, ServerClose).s.open && Apply(w, ServerClose).s.table == map[]
    ensures !w.c.open ==> Apply(w, Handle(r, decodes)) == w
    ensures !w.s.open ==> Apply(w, Serve(req, fate)) == w && Apply(w, PickNotify(id, body)) == w
  {
  }

  /** What becomes of a request at the server, case by case. */
  lemma ServedByCases(w: World, req: Req, fate: Fate, svc: nat)
    requires w.s.open && req in w.toServer && IsFirst(w.services, req.service, svc)
    ensures var w' := Apply(w, Serve(req, fate)); var methods := w.services[svc].methods;
      var refused := if req.methodName !in methods then Some(1002)
                     else if req.methodName == NOTIFY && req.body == [] then None
                     else if req.body != [] && fate == Undecodable then Some(1003)
                     else if fate == NoMemory then Some(1007)
                     else None;
      && w'.c == w.c && w'.services == w.services && w'.toServer == w.toServer - multiset{req}
      && (refused.Some? ==>
            w'.toClient == w.toClient + multiset{Resp(req.id, refused.value, [], Answered)} && w'.s.jobs == w.s.jobs)
      && (refused.None? ==> w'.toClient == w.toClient)
      && (refused.None? && req.methodName == NOTIFY && req.body == [] ==>
            w'.s == w.s.(table := if svc in w.s.table.Values then w.s.table else w.s.table[req.id := svc]))
      && (refused.None? && !(req.methodName == NOTIFY && req.body == []) ==>
            w'.s == w.s.(jobs := w.s.jobs + multiset{Job(req, svc)}))
  {
    DecisionByCases(w.services, req.service, req.methodName, req.body, fate, svc);
    hide Decide, IsFirst;
  }

  /** A finished job is answered, with 1005 if the service says it failed. */
  lemma FinishAnswers(w: World, job: Job, failed: bool, body: Bytes)
    requires job in w.s.jobs
    ensures var w' := Apply(w, Finish(job, failed, body)); var code := if failed then 1005 else 0;
      && w'.c == w.c && w'.services == w.services
      && w'.toClient == w.toClient + multiset{Resp(job.req.id, code, body, Answered)}
  {
  }

  /** A response completes a call without notify: with its code, or with 1004 if it has a body that cannot be
      decoded. */
  lemma ResponseCompletes(w: World, r: Resp, decodes: bool)
    requires w.c.open && r in w.toClient && r.id in w.c.table && w.c.table[r.id].ec == 0
    ensures var w' := Apply(w, Handle(r, decodes));
      && r.id !in w'.c.table
      && FiredBy(w'.c, r.id)
         == FiredBy(w.c, r.id) + [Outcome(if r.body != [] && !decodes then 1004 else r.code, r.body, r.origin, decodes)]
  {
  }

  /** The way of an undisturbed call, from every state in which it has taken its id: if the server has the service
      and the method, and can decode the message, then inserting, sending, serving, finishing and handling complete
      the call, with the service's verdict and the service's message. */
  lemma CallCompletes(w: World, id: Id, svc: nat, failed: bool, body: Bytes, decodes: bool)
    requires w.c.open && w.s.open && In(w.c, id, Phase.Begun) && !w.c.calls[id].Notify()
    requires IsFirst(w.services, WireName(w.c.calls[id].service), svc)
    requires WireName(w.c.calls[id].methodName) in w.services[svc].methods
    ensures var k := w.c.calls[id];
      var req := Req(id, WireName(k.service), WireName(k.methodName), k.body);
      var code := if failed then 1005 else 0;
      var w' := Run(w, [Enter(id), Transmit(id, Accepted), Serve(req, Runs), Finish(Job(req, svc), failed, body),
                        Handle(Resp(id, code, body, Answered), decodes)]);
      && FiredBy(w'.c, id) == [Outcome(if body != [] && !decodes then 1004 else code, body, Answered, decodes)]
      && id !in w'.c.table && In(w'.c, id, Sent)
  {
    var k, code := w.c.calls[id], if failed then 1005 else 0;
    var req := Req(id, WireName(k.service), WireName(k.methodName), k.body);
    NotifyOnTheWire(k);
    hide Apply, Run, WireName, IsFirst, FiredBy;
    PlainCallGetsIn(w, id);
    var w1 := Apply(w, Enter(id));
    SentByCases(w1, id, Accepted);
    var w2 := Apply(w1, Transmit(id, Accepted));
    ServedByCases(w2, req, Runs, svc);
    var w3 := Apply(w2, Serve(req, Runs));
    FinishAnswers(w3, Job(req, svc), failed, body);
    var w4 := Apply(w3, Finish(Job(req, svc), failed, body));
    ResponseCompletes(w4, Resp(id, code, body, Answered), decodes);
    FiredUnmoved(w1.c, w4.c, id);
    HandleKeepsPhase(w4, Resp(id, code, body, Answered), decodes, id);
    RunFive(w, Enter(id), Transmit(id, Accepted), Serve(req, Runs), Finish(Job(req, svc), failed, body),
            Handle(Resp(id, code, body, Answered), decodes));
  }

  lemma FiredUnmoved(c: Client, c': Client, id: Id)
    requires c'.fired == c.fired
    ensures FiredBy(c', id) == FiredBy(c, id)
  {
  }

  lemma HandleKeepsPhase(w: World, r: Resp, decodes: bool, id: Id)
    ensures Apply(w, Handle(r, decodes)).c.calls == w.c.calls
  {
    CompletionAdds(w.c, r.id, OutcomeOf(r, decodes));
    hide AfterResponseTo;
  }

  lemma RunFive(w: World, e: Event, f: Event, g: Event, h: Event, i: Event)
    ensures Run(w, [e, f, g, h, i]) == Apply(Apply(Apply(Apply(Apply(w, e), f), g), h), i)
  {
    hide Apply;
    assert [e, f, g, h, i][1..] == [f, g, h, i];
    RunFour(Apply(w, e), f, g, h, i);
  }

  // ---------------------------------------------------------------- the way of a notification

  /** `notify` sends what it is given under the id registered for the service. */
  lemma NotifyPushes(w: World, id: Id, body: Bytes)
    requires w.s.open && id in w.s.table
    ensures var p := Push(id, w.s.table[id], body);
      var w' := Apply(Apply(w, PickNotify(id, body)), PushNotify(p));
      && w'.c == w.c && w'.services == w.services && w'.s.table == w.s.table
      && w'.toClient == w.toClient + multiset{Resp(id, 0, body, Pushed(w.s.table[id]))}
  {
  }

  /** The way of an undisturbed registration, from every state in which a notify call without a message has taken
      its id, the client has no marked entry for the name, and the server nobody registered for the service. */
  lemma NotifyRegisters(w: World, id: Id, svc: nat, fate: Fate)
    requires w.c.open && w.s.open && In(w.c, id, Phase.Begun) && w.c.calls[id].Notify() && w.c.calls[id].body == []
    requires forall other <- w.c.table :: w.c.table[other].ec != 0 ==> w.c.table[other].text != w.c.calls[id].service
    requires IsFirst(w.services, WireName(w.c.calls[id].service), svc)
    requires NOTIFY in w.services[svc].methods && svc !in w.s.table.Values
    ensures var k := w.c.calls[id];
      var w' := Run(w, [Enter(id), Transmit(id, Accepted), Serve(Req(id, WireName(k.service), NOTIFY, []), fate)]);
      && w'.s.table == w.s.table[id := svc] && w'.c.open && w'.s.open && In(w'.c, id, Sent)
      && id in w'.c.table && w'.c.table[id] == Entry(ENOTIFY_MARK, k.service) && FiredBy(w'.c, id) == []
  {
    var k := w.c.calls[id];
    var req := Req(id, WireName(k.service), NOTIFY, []);
    NotifyOnTheWire(k);
    hide Apply, Run, WireName, IsFirst, FiredBy;
    NotifyCallGetsInIff(w, id);
    var w1 := Apply(w, Enter(id));
    SentByCases(w1, id, Accepted);
    var w2 := Apply(w1, Transmit(id, Accepted));
    ServedByCases(w2, req, fate, svc);
    var w3 := Apply(w2, Serve(req, fate));
    FiredUnmoved(w1.c, w3.c, id);
    RunThree(w, Enter(id), Transmit(id, Accepted), Serve(req, fate));
  }

  lemma RunThree(w: World, e: Event, f: Event, g: Event)
    ensures Run(w, [e, f, g]) == Apply(Apply(Apply(w, e), f), g)
  {
    hide Apply;
    assert [e, f, g][1..] == [f, g] && [f, g][1..] == [g] && [g][1..] == [];
    assert Run(w, [e, f, g]) == Run(Apply(w, e), [f, g]) == Run(Apply(Apply(w, e), f), [g]);
    assert Run(Apply(Apply(w, e), f), [g]) == Run(Apply(Apply(Apply(w, e), f), g), []);
  }

  /** And of a notification: as long as the client holds the registered entry, looking up, pushing and handling call
      its callback with the service's message, and the entry stays for the next one. */
  lemma NotificationArrives(w: World, id: Id, body: Bytes, decodes: bool)
    requires w.c.open && w.s.open && id in w.s.table && id in w.c.calls
    requires id in w.c.table && w.c.table[id] == Entry(ENOTIFY_MARK, w.c.calls[id].service)
    ensures var svc := w.s.table[id];
      var w' := Run(w, [PickNotify(id, body), PushNotify(Push(id, svc, body)),
                        Handle(Resp(id, 0, body, Pushed(svc)), decodes)]);
      && w'.s.table == w.s.table && w'.c.table == w.c.table
      && FiredBy(w'.c, id)
         == FiredBy(w.c, id) + [Outcome(if body != [] && !decodes then 1004 else 0, body, Pushed(svc), decodes)]
  {
    var svc := w.s.table[id];
    NotifyPushes(w, id, body);
    MarkedIsCompleted(Apply(Apply(w, PickNotify(id, body)), PushNotify(Push(id, svc, body))),
                      Resp(id, 0, body, Pushed(svc)), decodes);
    hide Apply, Run, FiredBy;
    RunThree(w, PickNotify(id, body), PushNotify(Push(id, svc, body)), Handle(Resp(id, 0, body, Pushed(svc)), decodes));
  }

  lemma MarkedIsCompleted(w: World, r: Resp, decodes: bool)
    requires w.c.open && r in w.toClient && r.id in w.c.table && w.c.table[r.id].ec == ENOTIFY_MARK
    ensures var w' := Apply(w, Handle(r, decodes));
      && w'.c.table == w.c.table && w'.s == w.s
      && FiredBy(w'.c, r.id)
         == FiredBy(w.c, r.id) + [Outcome(if r.body != [] && !decodes then 1004 else r.code, r.body, r.origin, decodes)]
  {
  }
}
