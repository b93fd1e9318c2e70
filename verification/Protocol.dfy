/** Client, messages in flight and server as one transition system: every interleaving of calls, replies,
    notifications, losses and closes. Messages may be lost and may overtake each other. */
module Protocol {
  import opened Base
  import opened Requests

  // ---------------------------------------------------------------- the client

  /** How far a `call_method` has come: id taken; refused as a repeated notify; entry inserted; sent; send
      failed, mark still up; mark down; call over. */
  datatype Phase = Begun | Refused | Entered | Sent | Failing | Unmarked | Over

  /** `sending` is history: how the send ended, once there was one. */
  datatype Call = Call(
    service: CStr, methodName: CStr, body: Bytes, async: bool, phase: Phase, sending: Option<Sending>)
  {
    predicate Notify() { methodName == NOTIFY }
    /** An entry for this call has been inserted. */
    predicate Inserted() { !phase.Begun? && !phase.Refused? }
    /** The request is with the connection, whatever the caller was told. */
    predicate Queued() { sending == Some(Accepted) || sending == Some(Unsignalled) }
    /** The caller was told that the send failed, and has taken the mark down, while the request is on its way. */
    predicate GaveUp() { sending == Some(Unsignalled) && (phase.Unmarked? || phase.Over?) }
  }

  /** Where a response comes from: the server's answer to the request, or `notify` on a service. */
  datatype Origin = Answered | Pushed(svc: nat)

  /** One completion of a controller: by a response, whose body could be decoded or not, or because the connection
      closed. */
  datatype Outcome = Outcome(ec: int, body: Bytes, origin: Origin, decodes: bool) | NetworkError

  /** `calls`, `fired` and `withdrawn` are history. */
  datatype Client = Client(
    issued: nat, open: bool, calls: map<Id, Call>, table: Table, fired: map<Id, seq<Outcome>>, withdrawn: set<Id>)

  predicate In(c: Client, id: Id, phase: Phase) { id in c.calls && c.calls[id].phase == phase }

  predicate Queued(c: Client, id: Id) { id in c.calls && c.calls[id].Queued() }

  function WithPhase(calls: map<Id, Call>, id: Id, phase: Phase): map<Id, Call>
    requires id in calls
  {
    calls[id := calls[id].(phase := phase)]
  }

  /** `call_method` up to `++id_`; a notify needs a callback. */
  function AfterBegin(c: Client, service: CStr, methodName: CStr, body: Bytes, async: bool): Client {
    if !c.open || (methodName == NOTIFY && !async) then c else
    c.(issued := c.issued + 1,
       calls := c.calls[(c.issued + 1) % TWO_32 := Call(service, methodName, body, async, Begun, None)])
  }

  function EntryOf(k: Call): Entry {
    if k.Notify() then Entry(ENOTIFY_MARK, k.service) else Entry(ENOERROR, [])
  }

  ghost function AfterEnter(c: Client, id: Id): Client {
    if !In(c, id, Begun) then c else
    match Insert(c.table, id, EntryOf(c.calls[id]))
    case None => c.(calls := WithPhase(c.calls, id, Refused))
    case Some(t) => c.(calls := WithPhase(c.calls, id, Entered), table := t, fired := c.fired[id := []])
  }

  /** The call's side of `send_packet`; a synchronous call that cannot send returns and leaves its entry. Without a
      connection `send` refuses. */
  function AfterSend(c: Client, id: Id, how: Sending): Client {
    if !In(c, id, Entered) then c else
    var sending := if c.open then how else Declined;
    var phase := if sending == Accepted then Sent else if c.calls[id].async then Failing else Over;
    c.(calls := c.calls[id := c.calls[id].(phase := phase, sending := Some(sending))])
  }

  function AfterUnmark(c: Client, id: Id): Client {
    if !In(c, id, Failing) then c else
    c.(calls := WithPhase(c.calls, id, Unmarked),
       table := if id in c.table then c.table[id := Entry(ENOERROR, [])] else c.table)
  }

  function AfterWithdraw(c: Client, id: Id): Client {
    if !In(c, id, Unmarked) then c else
    var t := Removed(c.table, id);
    c.(calls := WithPhase(c.calls, id, Over), table := t,
       withdrawn := if t != c.table then c.withdrawn + {id} else c.withdrawn)
  }

  function FiredBy(c: Client, id: Id): seq<Outcome> {
    if id in c.fired then c.fired[id] else []
  }

  /** `process_response` as one step: look up, complete, restore the mark. */
  function AfterResponseTo(c: Client, id: Id, o: Outcome): Client {
    if id !in c.table then c else
    c.(table := AfterResponse(c.table, id), fired := c.fired[id := FiredBy(c, id) + [o]])
  }

  /** `on_close`: whatever is in the table is completed with the network error. */
  function AfterClose(c: Client): Client {
    if !c.open then c else
    c.(open := false, table := map[],
       fired := map id | id in c.fired :: if id in c.table then c.fired[id] + [NetworkError] else c.fired[id])
  }

  // ---------------------------------------------------------------- the whole

  datatype Req = Req(id: Id, service: Bytes, methodName: Bytes, body: Bytes)
  datatype Resp = Resp(id: Id, code: int, body: Bytes, origin: Origin)
  datatype Job = Job(req: Req, svc: nat)
  datatype Answer = Answer(req: Req, code: int, body: Bytes)
  datatype Push = Push(id: Id, svc: nat, body: Bytes)

  /** `answers` is history; `outbox` holds notifications looked up but not yet sent. */
  datatype Server = Server(
    open: bool, table: map<Id, nat>, jobs: multiset<Job>, outbox: multiset<Push>, answers: map<Id, Answer>)

  datatype World = World(
    services: seq<Service>, c: Client, s: Server, toServer: multiset<Req>, toClient: multiset<Resp>)

  function Start(services: seq<Service>): World {
    World(services, Client(0, true, map[], map[], map[], {}), Server(true, map[], multiset{}, multiset{}, map[]),
          multiset{}, multiset{})
  }

  function WireReq(id: Id, k: Call): Req {
    Req(id, WireName(k.service), WireName(k.methodName), k.body)
  }

  datatype Event =
    | Begin(service: CStr, methodName: CStr, body: Bytes, async: bool)
    | Enter(id: Id)
    | Transmit(id: Id, how: Sending)
    | Unmark(id: Id)
    | Withdraw(id: Id)
    | Serve(req: Req, fate: Fate)
    | Finish(job: Job, failed: bool, body: Bytes)
    | PickNotify(id: Id, body: Bytes)
    | PushNotify(push: Push)
    | Handle(resp: Resp, decodes: bool)
    | LoseRequest(req: Req)
    | LoseResponse(resp: Resp)
    | Close
    | ServerClose

  /** The events that only the client takes part in. */
  ghost function ClientAfter(c: Client, e: Event): Client {
    match e
    case Begin(service, methodName, body, async) => AfterBegin(c, service, methodName, body, async)
    case Enter(id) => AfterEnter(c, id)
    case Transmit(id, how) => AfterSend(c, id, how)
    case Unmark(id) => AfterUnmark(c, id)
    case Withdraw(id) => AfterWithdraw(c, id)
    case Close => AfterClose(c)
    case _ => c
  }

  /** At most 2^32 calls in all, so that no id comes twice. */
  ghost predicate MayIssue(c: Client, e: Event) { ClientAfter(c, e).issued <= TWO_32 }

  /** The request that the event puts on the wire, if any. */
  predicate Transmits(c: Client, e: Event) {
    e.Transmit? && In(c, e.id, Entered) && e.how != Declined && c.open
  }

  ghost function AfterClientStep(w: World, e: Event): World {
    w.(c := ClientAfter(w.c, e),
       toServer := if Transmits(w.c, e) then w.toServer + multiset{WireReq(e.id, w.c.calls[e.id])} else w.toServer)
  }

  function Respond(w: World, req: Req, code: int, body: Bytes): World {
    w.(s := w.s.(answers := w.s.answers[req.id := Answer(req, code, body)]),
       toClient := w.toClient + multiset{Resp(req.id, code, body, Answered)})
  }

  function AfterServe(w: World, req: Req, fate: Fate): World {
    if !w.s.open || req !in w.toServer then w else
    var w' := w.(toServer := w.toServer - multiset{req});
    match Decide(w.services, req.service, req.methodName, req.body, fate)
    case Reject(code) => Respond(w', req, code, [])
    case Register(s) => w'.(s := w.s.(table := Registered(w.s.table, req.id, s)))
    case Execute(s) => w'.(s := w.s.(jobs := w.s.jobs + multiset{Job(req, s)}))
  }

  /** The user's `done` callback, at any later time and in any order. */
  function AfterFinish(w: World, job: Job, failed: bool, body: Bytes): World {
    if job !in w.s.jobs then w else
    Respond(w.(s := w.s.(jobs := w.s.jobs - multiset{job})), job.req, if failed then EMETHODCALL else ENOERROR, body)
  }

  /** The lookup of the server's `notify`; sending comes after the lock is released. */
  function AfterPick(w: World, id: Id, body: Bytes): World {
    if w.s.open && id in w.s.table then
      w.(s := w.s.(outbox := w.s.outbox + multiset{Push(id, w.s.table[id], body)}))
    else w
  }

  function AfterPush(w: World, p: Push): World {
    if p !in w.s.outbox then w else
    w.(s := w.s.(outbox := w.s.outbox - multiset{p}),
       toClient := w.toClient + multiset{Resp(p.id, ENOERROR, p.body, Pushed(p.svc))})
  }

  function OutcomeOf(r: Resp, decodes: bool): Outcome {
    Outcome(OutcomeCode(r.code, r.body, decodes), r.body, r.origin, decodes)
  }

  function AfterHandle(w: World, r: Resp, decodes: bool): World {
    if !w.c.open || r !in w.toClient then w else
    w.(toClient := w.toClient - multiset{r}, c := AfterResponseTo(w.c, r.id, OutcomeOf(r, decodes)))
  }

  ghost function Apply(w: World, e: Event): World {
    match e
    case Serve(req, fate) => AfterServe(w, req, fate)
    case Finish(job, failed, body) => AfterFinish(w, job, failed, body)
    case PickNotify(id, body) => AfterPick(w, id, body)
    case PushNotify(p) => AfterPush(w, p)
    case Handle(r, decodes) => AfterHandle(w, r, decodes)
    case LoseRequest(req) => w.(toServer := w.toServer - multiset{req})
    case LoseResponse(r) => w.(toClient := w.toClient - multiset{r})
    case ServerClose => w.(s := w.s.(open := false, table := map[]))
    case _ => AfterClientStep(w, e)
  }

  ghost function Run(w: World, es: seq<Event>): World
    decreases |es|
  {
    if es == [] then w else Run(Apply(w, es[0]), es[1..])
  }

  // ---------------------------------------------------------------- the client's invariant

  /** Ids are those of the calls issued; entries, completions and withdrawals belong to inserted calls. */
  ghost predicate Ids(c: Client) {
    && c.issued <= TWO_32
    && (forall id: Id :: id in c.calls <==> 1 <= id <= c.issued || (id == 0 && c.issued == TWO_32))
    && (forall id :: id in c.fired <==> id in c.calls && c.calls[id].Inserted())
    && (forall id <- c.calls :: c.calls[id].sending.None? <==> c.calls[id].phase in {Begun, Refused, Entered})
    && (forall id <- c.calls :: c.calls[id].sending == Some(Accepted) <==> c.calls[id].phase == Sent)
    && (forall id <- c.table :: id in c.fired)
    && c.withdrawn <= c.fired.Keys
  }

  predicate Pending(c: Client, id: Id) { id in c.table }

  /** In exactly one place: pending, completed once, or withdrawn. */
  predicate InOnePlace(c: Client, id: Id) {
    (if Pending(c, id) then 1 else 0) + |FiredBy(c, id)| + (if id in c.withdrawn then 1 else 0) == 1
  }

  ghost predicate Partition(c: Client) {
    forall id <- c.calls :: c.calls[id].Inserted() && !c.calls[id].Notify() ==> InOnePlace(c, id)
  }

  /** A notify call whose entry should be standing, mark up. */
  predicate Standing(k: Call) { k.Notify() && (k.phase.Entered? || k.phase.Sent? || k.phase.Failing?) }

  /** The mark is up exactly on standing notify entries, and while the client is open those are all there. */
  ghost predicate Marks(c: Client) {
    && (forall id <- c.calls :: c.calls[id].Notify() ==> c.calls[id].async)
    && (forall id <- c.table :: id in c.calls &&
          if Standing(c.calls[id]) then c.table[id] == Entry(ENOTIFY_MARK, c.calls[id].service)
          else c.table[id].ec == ENOERROR)
    && (c.open ==> forall id <- c.calls :: Standing(c.calls[id]) ==> id in c.table)
  }

  /** A call that is over for a failed send has left its entry behind only if it was synchronous. */
  ghost predicate Leftovers(c: Client) {
    && (forall id <- c.table :: In(c, id, Over) ==> !c.calls[id].async)
    && (forall id <- c.withdrawn :: In(c, id, Over) && c.calls[id].async)
    && (forall id <- c.calls :: c.calls[id].phase.Failing? || c.calls[id].phase.Unmarked? ==> c.calls[id].async)
  }

  ghost predicate ClientInv(c: Client) {
    Ids(c) && Partition(c) && Marks(c) && OneMarkPerService(c.table) && Leftovers(c)
  }

  /** No entry gains a mark or changes its text. */
  ghost predicate NoNewMarks(t: Table, t': Table) {
    forall id :: Marked(t', id) ==> Marked(t, id) && t'[id].text == t[id].text
  }

  /** The id of the next call is new exactly as long as fewer than 2^32 calls have been made. */
  lemma FreshId(c: Client)
    requires Ids(c)
    ensures (c.issued + 1) % TWO_32 !in c.calls <==> c.issued < TWO_32
  {
  }

  lemma BeginKeepsIds(c: Client, service: CStr, methodName: CStr, body: Bytes, async: bool)
    requires Ids(c) && AfterBegin(c, service, methodName, body, async).issued <= TWO_32
    ensures Ids(AfterBegin(c, service, methodName, body, async))
  {
    FreshId(c);
  }

  lemma BeginKeepsPlaces(c: Client, service: CStr, methodName: CStr, body: Bytes, async: bool)
    requires Ids(c) && Partition(c) && AfterBegin(c, service, methodName, body, async).issued <= TWO_32
    ensures Ids(AfterBegin(c, service, methodName, body, async))
    ensures Partition(AfterBegin(c, service, methodName, body, async))
  {
    FreshId(c);
    BeginKeepsIds(c, service, methodName, body, async);
    assert Partition(AfterBegin(c, service, methodName, body, async)) by { hide Ids; }
  }

  lemma BeginKeepsMarks(c: Client, service: CStr, methodName: CStr, body: Bytes, async: bool)
    requires Ids(c) && Marks(c) && AfterBegin(c, service, methodName, body, async).issued <= TWO_32
    ensures Marks(AfterBegin(c, service, methodName, body, async))
  {
    FreshId(c);
  }

  lemma EnterKeepsIds(c: Client, id: Id)
    requires Ids(c)
    ensures Ids(AfterEnter(c, id))
  {
    hide Repeats;
  }

  lemma EnterKeepsPartition(c: Client, id: Id)
    requires Ids(c) && Partition(c)
    ensures Partition(AfterEnter(c, id))
  {
    hide Repeats;
  }

  lemma EnterKeepsMarks(c: Client, id: Id)
    requires Ids(c) && Marks(c)
    ensures Marks(AfterEnter(c, id))
  {
    hide Repeats;
  }

  lemma EnterKeepsOneMark(c: Client, id: Id)
    requires OneMarkPerService(c.table) && Ids(c)
    ensures OneMarkPerService(AfterEnter(c, id).table)
  {
  }

  lemma SendKeepsPlaces(c: Client, id: Id, how: Sending)
    requires Ids(c) && Partition(c)
    ensures Ids(AfterSend(c, id, how)) && Partition(AfterSend(c, id, how))
  {
  }

  lemma SendKeepsMarks(c: Client, id: Id, how: Sending)
    requires Ids(c) && Marks(c)
    ensures Marks(AfterSend(c, id, how)) && AfterSend(c, id, how).table == c.table
  {
    hide Partition;
  }

  lemma UnmarkKeepsIds(c: Client, id: Id)
    requires Ids(c)
    ensures Ids(AfterUnmark(c, id))
  {
  }

  lemma UnmarkKeepsPlaces(c: Client, id: Id)
    requires Ids(c) && Partition(c)
    ensures Ids(AfterUnmark(c, id)) && Partition(AfterUnmark(c, id))
  {
    UnmarkKeepsIds(c, id);
    assert Partition(AfterUnmark(c, id)) by { hide Ids; }
  }

  lemma UnmarkKeepsMarks(c: Client, id: Id)
    requires Ids(c) && Marks(c)
    ensures Marks(AfterUnmark(c, id)) && NoNewMarks(c.table, AfterUnmark(c, id).table)
  {
    hide Partition;
  }

  lemma WithdrawKeepsIds(c: Client, id: Id)
    requires Ids(c)
    ensures Ids(AfterWithdraw(c, id))
  {
  }

  lemma WithdrawKeepsPlaces(c: Client, id: Id)
    requires Ids(c) && Partition(c)
    ensures Ids(AfterWithdraw(c, id)) && Partition(AfterWithdraw(c, id))
  {
    WithdrawKeepsIds(c, id);
    assert Partition(AfterWithdraw(c, id)) by { hide Ids; }
  }

  lemma WithdrawKeepsMarks(c: Client, id: Id)
    requires Ids(c) && Marks(c)
    ensures Marks(AfterWithdraw(c, id)) && NoNewMarks(c.table, AfterWithdraw(c, id).table)
  {
    hide Partition;
  }

  lemma ResponseKeepsPlaces(c: Client, id: Id, o: Outcome)
    requires Ids(c) && Partition(c) && Marks(c)
    ensures Ids(AfterResponseTo(c, id, o)) && Partition(AfterResponseTo(c, id, o))
  {
  }

  lemma ResponseKeepsMarks(c: Client, id: Id, o: Outcome)
    requires Ids(c) && Marks(c)
    ensures Marks(AfterResponseTo(c, id, o)) && NoNewMarks(c.table, AfterResponseTo(c, id, o).table)
  {
  }

  lemma CloseKeeps(c: Client)
    requires Ids(c) && Partition(c) && Marks(c)
    ensures Ids(AfterClose(c)) && Partition(AfterClose(c)) && Marks(AfterClose(c))
    ensures NoNewMarks(c.table, AfterClose(c).table)
  {
  }

  // ---------------------------------------------------------------- what travels and what the server holds

  /** The request of a call that was queued, as it was queued. */
  ghost predicate Genuine(c: Client, req: Req) {
    Queued(c, req.id) && req == WireReq(req.id, c.calls[req.id])
  }

  /** A request is at most once at the server: in flight, being executed, or answered; always as it was sent. */
  ghost predicate Requested(
    services: seq<Service>, c: Client, toServer: multiset<Req>, jobs: multiset<Job>, answers: map<Id, Answer>)
  {
    && (forall r <- toServer :: Genuine(c, r) && toServer[r] == 1)
    && (forall j <- jobs :: Genuine(c, j.req) && jobs[j] == 1 && FindSvc(services, j.req.service) == Some(j.svc))
    && (forall id <- answers :: Genuine(c, answers[id].req) && answers[id].req.id == id)
    && (forall r <- toServer, j <- jobs :: r.id != j.req.id)
    && (forall r <- toServer :: r.id !in answers)
    && (forall j <- jobs :: j.req.id !in answers)
  }

  predicate Matches(answers: map<Id, Answer>, id: Id, o: Outcome)
    requires o.Outcome?
  {
    id in answers && o.body == answers[id].body
    && o.ec == if o.body != [] && !o.decodes then ERESPONSE else answers[id].code
  }

  /** What a response says, and what a completion shows, is what the server answered to that very request. */
  ghost predicate Correlated(c: Client, toClient: multiset<Resp>, answers: map<Id, Answer>) {
    && (forall r <- toClient :: r.origin == Answered ==>
          r.id in answers && r.code == answers[r.id].code && r.body == answers[r.id].body)
    && (forall id, o :: o in FiredBy(c, id) && o.Outcome? && o.origin == Answered ==> Matches(answers, id, o))
  }

  /** `id` is a notify call, its request queued, for a name that the server resolves to `svc`. */
  predicate NotifyFor(services: seq<Service>, c: Client, id: Id, svc: nat) {
    Queued(c, id) && c.calls[id].Notify() && FindSvc(services, WireName(c.calls[id].service)) == Some(svc)
  }

  /** The client's live, marked notify entry `id` is for a name that the server resolves to `svc`. */
  ghost predicate Holds(services: seq<Service>, c: Client, id: Id, svc: nat) {
    NotifyFor(services, c, id, svc) && id in c.table && c.table[id] == Entry(ENOTIFY_MARK, c.calls[id].service)
  }

  /** Whatever the server does about a registration, and whatever it pushes, belongs to a notify call for that
      service, one id per service. */
  ghost predicate Agreement(
    services: seq<Service>, c: Client, toClient: multiset<Resp>, table: map<Id, nat>, outbox: multiset<Push>)
  {
    && (forall id, id' :: id in table && id' in table && table[id] == table[id'] ==> id == id')
    && (forall id <- table :: NotifyFor(services, c, id, table[id]))
    && (forall p <- outbox :: NotifyFor(services, c, p.id, p.svc))
    && (forall r <- toClient :: r.origin.Pushed? ==> NotifyFor(services, c, r.id, r.origin.svc) && r.code == ENOERROR)
    && (forall id, o :: o in FiredBy(c, id) && o.Outcome? && o.origin.Pushed? ==>
          NotifyFor(services, c, id, o.origin.svc))
  }

  ghost predicate Inv(w: World) {
    && ClientInv(w.c)
    && Requested(w.services, w.c, w.toServer, w.s.jobs, w.s.answers)
    && Correlated(w.c, w.toClient, w.s.answers)
    && Agreement(w.services, w.c, w.toClient, w.s.table, w.s.outbox)
  }

  /** A client step that leaves queued calls as they are, but for their phase, and completes nothing by a response. */
  ghost predicate Quiet(c: Client, c': Client) {
    && (forall id :: Queued(c, id) ==> id in c'.calls && c'.calls[id].(phase := c.calls[id].phase) == c.calls[id])
    && (forall id, o :: o in FiredBy(c', id) && o.Outcome? ==> o in FiredBy(c, id))
  }

  lemma QuietKeepsRequested(w: World, c': Client)
    requires Requested(w.services, w.c, w.toServer, w.s.jobs, w.s.answers) && Quiet(w.c, c')
    ensures Requested(w.services, c', w.toServer, w.s.jobs, w.s.answers)
  {
    hide FindSvc, WireName, FiredBy;
  }

  lemma QuietKeepsCorrelated(c: Client, c': Client, toClient: multiset<Resp>, answers: map<Id, Answer>)
    requires Correlated(c, toClient, answers) && Quiet(c, c')
    ensures Correlated(c', toClient, answers)
  {
    hide FiredBy, Matches;
  }

  lemma QuietKeepsAgreement(w: World, c': Client)
    requires Agreement(w.services, w.c, w.toClient, w.s.table, w.s.outbox) && Quiet(w.c, c')
    ensures Agreement(w.services, c', w.toClient, w.s.table, w.s.outbox)
  {
    hide FindSvc, WireName, FiredBy;
  }

  /** An entry the server knows of is live and marked while the client is open, unless the call gave up. */
  lemma QueuedNotifyIsHeldIff(services: seq<Service>, c: Client, id: Id, svc: nat)
    requires Ids(c) && Marks(c) && c.open && NotifyFor(services, c, id, svc)
    ensures Holds(services, c, id, svc) <==> !c.calls[id].GaveUp()
    ensures Standing(c.calls[id]) <==> !c.calls[id].GaveUp()
  {
  }

  lemma EnterIsQuiet(c: Client, id: Id)
    requires Ids(c)
    ensures Quiet(c, AfterEnter(c, id))
  {
    hide Repeats;
  }

  lemma BeginIsQuiet(c: Client, service: CStr, methodName: CStr, body: Bytes, async: bool)
    requires Ids(c) && AfterBegin(c, service, methodName, body, async).issued <= TWO_32
    ensures Quiet(c, AfterBegin(c, service, methodName, body, async))
  {
    FreshId(c);
  }

  lemma SendIsQuiet(c: Client, id: Id, how: Sending)
    requires Ids(c)
    ensures Quiet(c, AfterSend(c, id, how))
  {
  }

  lemma ClientStepIsQuiet(c: Client, e: Event)
    requires Ids(c) && MayIssue(c, e)
    ensures Quiet(c, ClientAfter(c, e))
  {
    hide Ids, AfterEnter, AfterBegin, AfterSend;
    match e
    case Begin(service, methodName, body, async) => BeginIsQuiet(c, service, methodName, body, async);
    case Enter(id) => EnterIsQuiet(c, id);
    case Transmit(id, how) => SendIsQuiet(c, id, how);
    case _ =>
  }

  // ---------------------------------------------------------------- requests

  /** The server has nothing under this id. */
  ghost predicate Absent(toServer: multiset<Req>, jobs: multiset<Job>, answers: map<Id, Answer>, id: Id) {
    (forall r <- toServer :: r.id != id) && (forall j <- jobs :: j.req.id != id) && id !in answers
  }

  /** Before a call is sent, the server has nothing under its id. */
  lemma AbsentBeforeSending(w: World, id: Id)
    requires Requested(w.services, w.c, w.toServer, w.s.jobs, w.s.answers) && !Queued(w.c, id)
    ensures Absent(w.toServer, w.s.jobs, w.s.answers, id)
  {
    hide FindSvc, WireReq;
  }

  lemma TransmitKeepsRequested(w: World, c: Client, req: Req)
    requires Requested(w.services, c, w.toServer, w.s.jobs, w.s.answers)
    requires Absent(w.toServer, w.s.jobs, w.s.answers, req.id) && Genuine(c, req)
    ensures Requested(w.services, c, w.toServer + multiset{req}, w.s.jobs, w.s.answers)
  {
    hide FindSvc, Genuine;
  }

  lemma TakeRequest(w: World, req: Req)
    requires Requested(w.services, w.c, w.toServer, w.s.jobs, w.s.answers) && req in w.toServer
    ensures var rest := w.toServer - multiset{req};
      && Requested(w.services, w.c, rest, w.s.jobs, w.s.answers)
      && Genuine(w.c, req) && Absent(rest, w.s.jobs, w.s.answers, req.id)
  {
    hide FindSvc, WireReq;
  }

  lemma TakeJob(w: World, job: Job)
    requires Requested(w.services, w.c, w.toServer, w.s.jobs, w.s.answers) && job in w.s.jobs
    ensures var rest := w.s.jobs - multiset{job};
      && Requested(w.services, w.c, w.toServer, rest, w.s.answers)
      && Genuine(w.c, job.req) && Absent(w.toServer, rest, w.s.answers, job.req.id)
  {
    hide FindSvc, WireReq;
  }

  lemma StartJob(w: World, req: Req, svc: nat)
    requires Requested(w.services, w.c, w.toServer, w.s.jobs, w.s.answers)
    requires Absent(w.toServer, w.s.jobs, w.s.answers, req.id) && Genuine(w.c, req)
    requires FindSvc(w.services, req.service) == Some(svc)
    ensures Requested(w.services, w.c, w.toServer, w.s.jobs + multiset{Job(req, svc)}, w.s.answers)
  {
    hide FindSvc, Genuine;
  }

  lemma AnswerKeepsRequested(w: World, a: Answer)
    requires Requested(w.services, w.c, w.toServer, w.s.jobs, w.s.answers)
    requires Absent(w.toServer, w.s.jobs, w.s.answers, a.req.id) && Genuine(w.c, a.req)
    ensures Requested(w.services, w.c, w.toServer, w.s.jobs, w.s.answers[a.req.id := a])
  {
    hide FindSvc, Genuine;
  }

  lemma AnswerKeepsCorrelated(c: Client, toClient: multiset<Resp>, answers: map<Id, Answer>, a: Answer)
    requires Correlated(c, toClient, answers) && a.req.id !in answers
    ensures Correlated(c, toClient + multiset{Resp(a.req.id, a.code, a.body, Answered)}, answers[a.req.id := a])
  {
    hide FiredBy;
  }

  /** An id that is nowhere at the server may get its answer. */
  lemma RespondKeeps(w: World, req: Req, code: int, body: Bytes)
    requires Inv(w) && Genuine(w.c, req) && Absent(w.toServer, w.s.jobs, w.s.answers, req.id)
    ensures Inv(Respond(w, req, code, body))
  {
    hide ClientInv, Requested, Correlated, Genuine;
    var a := Answer(req, code, body);
    AnswerKeepsRequested(w, a);
    AnswerKeepsCorrelated(w.c, w.toClient, w.s.answers, a);
    ResponseKeepsAgreement(w, Resp(req.id, code, body, Answered));
    hide Agreement;
  }

  /** A response that is no push, or is one for a notify call of that service. */
  lemma ResponseKeepsAgreement(w: World, r: Resp)
    requires Agreement(w.services, w.c, w.toClient, w.s.table, w.s.outbox)
    requires r.origin.Pushed? ==> NotifyFor(w.services, w.c, r.id, r.origin.svc) && r.code == ENOERROR
    ensures Agreement(w.services, w.c, w.toClient + multiset{r}, w.s.table, w.s.outbox)
  {
    hide FiredBy, NotifyFor;
  }

  lemma RejectKeepsInv(w: World, req: Req, code: int)
    requires Inv(w) && req in w.toServer
    ensures Inv(Respond(w.(toServer := w.toServer - multiset{req}), req, code, []))
  {
    TakeRequest(w, req);
    hide ClientInv, Requested, Correlated, Agreement, Genuine, Absent;
    RespondKeeps(w.(toServer := w.toServer - multiset{req}), req, code, []);
  }

  lemma ExecuteKeepsInv(w: World, req: Req, svc: nat)
    requires Inv(w) && req in w.toServer && FindSvc(w.services, req.service) == Some(svc)
    ensures Inv(w.(toServer := w.toServer - multiset{req}, s := w.s.(jobs := w.s.jobs + multiset{Job(req, svc)})))
  {
    TakeRequest(w, req);
    hide ClientInv, Requested, Correlated, Agreement, Genuine, Absent, FindSvc;
    StartJob(w.(toServer := w.toServer - multiset{req}), req, svc);
  }

  lemma FinishKeepsInv(w: World, job: Job, failed: bool, body: Bytes)
    requires Inv(w) && job in w.s.jobs
    ensures Inv(AfterFinish(w, job, failed, body))
  {
    TakeJob(w, job);
    hide ClientInv, Requested, Correlated, Agreement, Genuine, Absent;
    var w' := w.(s := w.s.(jobs := w.s.jobs - multiset{job}));
    RespondKeeps(w', job.req, if failed then EMETHODCALL else ENOERROR, body);
  }

  // ---------------------------------------------------------------- notifications

  /** The wire carries the method name "notify" for notify calls only. */
  lemma NotifyOnTheWire(k: Call)
    ensures WireName(k.methodName) == NOTIFY <==> k.Notify()
  {
  }

  lemma GenuineNotify(w: World, req: Req, svc: nat)
    requires Genuine(w.c, req) && req.methodName == NOTIFY && FindSvc(w.services, req.service) == Some(svc)
    ensures NotifyFor(w.services, w.c, req.id, svc)
  {
    NotifyOnTheWire(w.c.calls[req.id]);
  }

  lemma RegisterKeepsAgreement(w: World, id: Id, svc: nat)
    requires Agreement(w.services, w.c, w.toClient, w.s.table, w.s.outbox) && NotifyFor(w.services, w.c, id, svc)
    ensures Agreement(w.services, w.c, w.toClient, Registered(w.s.table, id, svc), w.s.outbox)
  {
    hide FiredBy, FindSvc, WireName;
    assert forall k <- w.s.table :: w.s.table[k] in w.s.table.Values;
  }

  lemma RegisterKeepsInv(w: World, req: Req, svc: nat)
    requires Inv(w) && req in w.toServer
    requires req.methodName == NOTIFY && FindSvc(w.services, req.service) == Some(svc)
    ensures Inv(w.(toServer := w.toServer - multiset{req}, s := w.s.(table := Registered(w.s.table, req.id, svc))))
  {
    TakeRequest(w, req);
    hide ClientInv, Requested, Correlated, Agreement, FindSvc;
    GenuineNotify(w, req, svc);
    RegisterKeepsAgreement(w, req.id, svc);
  }

  lemma ServeKeepsInv(w: World, req: Req, fate: Fate)
    requires Inv(w) && req in w.toServer
    ensures Inv(AfterServe(w, req, fate))
  {
    hide Inv, FindSvc, Registered, Respond;
    match Decide(w.services, req.service, req.methodName, req.body, fate)
    case Reject(code) => RejectKeepsInv(w, req, code);
    case Execute(svc) => ExecuteKeepsInv(w, req, svc);
    case Register(svc) => RegisterKeepsInv(w, req, svc);
  }

  lemma PickKeepsInv(w: World, id: Id, body: Bytes)
    requires Inv(w)
    ensures Inv(AfterPick(w, id, body))
  {
    hide ClientInv, Requested, Correlated, FiredBy, NotifyFor;
  }

  lemma TakePush(w: World, p: Push)
    requires Agreement(w.services, w.c, w.toClient, w.s.table, w.s.outbox) && p in w.s.outbox
    ensures Agreement(w.services, w.c, w.toClient, w.s.table, w.s.outbox - multiset{p})
    ensures NotifyFor(w.services, w.c, p.id, p.svc)
  {
    hide FiredBy, NotifyFor;
  }

  lemma PushKeepsCorrelated(c: Client, toClient: multiset<Resp>, answers: map<Id, Answer>, r: Resp)
    requires Correlated(c, toClient, answers) && r.origin.Pushed?
    ensures Correlated(c, toClient + multiset{r}, answers)
  {
    hide FiredBy, Matches;
  }

  lemma PushKeepsInv(w: World, p: Push)
    requires Inv(w)
    ensures Inv(AfterPush(w, p))
  {
    hide ClientInv, Requested, Correlated, Agreement, NotifyFor;
    if p in w.s.outbox {
      var r := Resp(p.id, ENOERROR, p.body, Pushed(p.svc));
      TakePush(w, p);
      ResponseKeepsAgreement(w.(s := w.s.(outbox := w.s.outbox - multiset{p})), r);
      PushKeepsCorrelated(w.c, w.toClient, w.s.answers, r);
    }
  }

  // ---------------------------------------------------------------- responses

  lemma ResponseIsForQueuedCall(w: World, r: Resp)
    requires Inv(w) && r in w.toClient
    ensures Queued(w.c, r.id)
  {
    hide ClientInv, FiredBy;
    if r.origin.Answered? {
      assert r.id in w.s.answers;
    } else {
      assert NotifyFor(w.services, w.c, r.id, r.origin.svc);
    }
  }

  /** What one completion adds. */
  lemma CompletionAdds(c: Client, id: Id, o: Outcome)
    ensures var c' := AfterResponseTo(c, id, o);
      && c'.calls == c.calls
      && forall k, x :: x in FiredBy(c', k) ==> x in FiredBy(c, k) || (k == id && x == o)
  {
  }

  lemma HandleKeepsRequested(w: World, id: Id, o: Outcome)
    requires Requested(w.services, w.c, w.toServer, w.s.jobs, w.s.answers)
    ensures Requested(w.services, AfterResponseTo(w.c, id, o), w.toServer, w.s.jobs, w.s.answers)
  {
    hide FiredBy, AfterResponseTo, FindSvc, WireReq;
    CompletionAdds(w.c, id, o);
  }

  lemma HandleKeepsCorrelated(c: Client, toClient: multiset<Resp>, answers: map<Id, Answer>, r: Resp, decodes: bool)
    requires Correlated(c, toClient, answers) && r in toClient
    ensures Correlated(AfterResponseTo(c, r.id, OutcomeOf(r, decodes)), toClient - multiset{r}, answers)
  {
    hide FiredBy, AfterResponseTo;
    CompletionAdds(c, r.id, OutcomeOf(r, decodes));
  }

  lemma HandleKeepsAgreement(w: World, r: Resp, decodes: bool)
    requires Agreement(w.services, w.c, w.toClient, w.s.table, w.s.outbox) && r in w.toClient
    ensures Agreement(w.services, AfterResponseTo(w.c, r.id, OutcomeOf(r, decodes)), w.toClient - multiset{r},
                      w.s.table, w.s.outbox)
  {
    hide FiredBy, AfterResponseTo, FindSvc, WireName;
    CompletionAdds(w.c, r.id, OutcomeOf(r, decodes));
  }

  lemma ResponseKeepsLeftovers(c: Client, id: Id, o: Outcome)
    requires Leftovers(c)
    ensures Leftovers(AfterResponseTo(c, id, o))
  {
  }

  lemma HandleKeepsInv(w: World, r: Resp, decodes: bool)
    requires Inv(w) && r in w.toClient
    ensures Inv(AfterHandle(w, r, decodes))
  {
    ResponseIsForQueuedCall(w, r);
    hide Requested, Correlated, Agreement, Ids, Partition, Marks, AfterResponseTo, In, OneMarkPerService, Leftovers;
    var o := OutcomeOf(r, decodes);
    ResponseKeepsPlaces(w.c, r.id, o);
    ResponseKeepsMarks(w.c, r.id, o);
    ResponseKeepsLeftovers(w.c, r.id, o);
    OneMarkKept(w.c.table, AfterResponseTo(w.c, r.id, o).table);
    HandleKeepsRequested(w, r.id, o);
    HandleKeepsCorrelated(w.c, w.toClient, w.s.answers, r, decodes);
    HandleKeepsAgreement(w, r, decodes);
  }

  // ---------------------------------------------------------------- every step, every run

  lemma OneMarkKept(t: Table, t': Table)
    requires OneMarkPerService(t) && NoNewMarks(t, t')
    ensures OneMarkPerService(t')
  {
  }

  lemma BeginKeepsLeftovers(c: Client, service: CStr, methodName: CStr, body: Bytes, async: bool)
    requires Ids(c) && Leftovers(c) && AfterBegin(c, service, methodName, body, async).issued <= TWO_32
    ensures Leftovers(AfterBegin(c, service, methodName, body, async))
  {
    FreshId(c);
  }

  lemma EnterKeepsLeftovers(c: Client, id: Id)
    requires Ids(c) && Leftovers(c)
    ensures Leftovers(AfterEnter(c, id))
  {
    hide Repeats;
  }

  lemma CloseKeepsLeftovers(c: Client)
    requires Leftovers(c)
    ensures Leftovers(AfterClose(c))
  {
  }

  lemma SendingKeepsLeftovers(c: Client, id: Id, how: Sending)
    requires Leftovers(c)
    ensures Leftovers(AfterSend(c, id, how)) && Leftovers(AfterUnmark(c, id))
  {
  }

  lemma WithdrawKeepsLeftovers(c: Client, id: Id)
    requires Marks(c) && Leftovers(c)
    ensures Leftovers(AfterWithdraw(c, id))
  {
  }

  lemma ClientStepKeeps(c: Client, e: Event)
    requires ClientInv(c) && MayIssue(c, e)
    ensures ClientInv(ClientAfter(c, e))
  {
    var c' := ClientAfter(c, e);
    match e
    case Begin(service, methodName, body, async) =>
      BeginKeepsPlaces(c, service, methodName, body, async);
      BeginKeepsMarks(c, service, methodName, body, async);
      BeginKeepsLeftovers(c, service, methodName, body, async);
    case Enter(id) =>
      EnterKeepsIds(c, id);
      EnterKeepsPartition(c, id);
      EnterKeepsMarks(c, id);
      EnterKeepsOneMark(c, id);
      EnterKeepsLeftovers(c, id);
    case Transmit(id, how) =>
      SendKeepsPlaces(c, id, how);
      SendKeepsMarks(c, id, how);
      SendingKeepsLeftovers(c, id, how);
    case Unmark(id) =>
      UnmarkKeepsPlaces(c, id);
      UnmarkKeepsMarks(c, id);
      SendingKeepsLeftovers(c, id, Accepted);
      OneMarkKept(c.table, c'.table);
    case Withdraw(id) =>
      WithdrawKeepsPlaces(c, id);
      WithdrawKeepsMarks(c, id);
      WithdrawKeepsLeftovers(c, id);
      OneMarkKept(c.table, c'.table);
    case Close =>
      CloseKeeps(c);
      CloseKeepsLeftovers(c);
      OneMarkKept(c.table, c'.table);
    case _ =>
    hide Ids, Partition, Marks, OneMarkPerService, Leftovers;
  }

  lemma ClientEventKeepsInv(w: World, e: Event)
    requires Inv(w) && MayIssue(w.c, e)
    ensures Inv(AfterClientStep(w, e))
  {
    hide ClientAfter, Requested, Correlated, Agreement, Quiet, Partition, Marks, OneMarkPerService, Leftovers, Absent;
    var c' := ClientAfter(w.c, e);
    ClientStepKeeps(w.c, e);
    ClientStepIsQuiet(w.c, e);
    QuietKeepsRequested(w, c');
    QuietKeepsCorrelated(w.c, c', w.toClient, w.s.answers);
    QuietKeepsAgreement(w, c');
    if Transmits(w.c, e) {
      AbsentBeforeSending(w, e.id);
      SentNow(w.c, e);
      TransmitKeepsRequested(w, c', WireReq(e.id, w.c.calls[e.id]));
    }
  }

  lemma SentNow(c: Client, e: Event)
    requires Transmits(c, e)
    ensures Genuine(ClientAfter(c, e), WireReq(e.id, c.calls[e.id]))
  {
  }

  lemma StepKeepsInv(w: World, e: Event)
    requires Inv(w) && MayIssue(w.c, e)
    ensures Inv(Apply(w, e))
  {
    hide Inv, MayIssue, Decide, Respond, AfterResponseTo, AfterPick, AfterPush, AfterClientStep;
    match e
    case Serve(req, fate) => if w.s.open && req in w.toServer { ServeKeepsInv(w, req, fate); }
    case Finish(job, failed, body) => if job in w.s.jobs { FinishKeepsInv(w, job, failed, body); }
    case Handle(r, decodes) => if w.c.open && r in w.toClient { HandleKeepsInv(w, r, decodes); }
    case PickNotify(id, body) => PickKeepsInv(w, id, body);
    case PushNotify(p) => PushKeepsInv(w, p);
    case LoseRequest(req) => LoseRequestKeepsInv(w, req);
    case LoseResponse(r) => LoseResponseKeepsInv(w, r);
    case ServerClose => ServerCloseKeepsInv(w);
    case _ => ClientEventKeepsInv(w, e);
  }

  lemma LoseRequestKeepsInv(w: World, req: Req)
    requires Inv(w)
    ensures Inv(w.(toServer := w.toServer - multiset{req}))
  {
    hide ClientInv, Correlated, Agreement, FindSvc, Genuine;
  }

  lemma LoseResponseKeepsInv(w: World, r: Resp)
    requires Inv(w)
    ensures Inv(w.(toClient := w.toClient - multiset{r}))
  {
    hide ClientInv, Requested, FiredBy, NotifyFor, Matches;
  }

  lemma ServerCloseKeepsInv(w: World)
    requires Inv(w)
    ensures Inv(w.(s := w.s.(open := false, table := map[])))
  {
    hide ClientInv, Correlated, Requested, FiredBy, NotifyFor;
  }

  lemma IssuedByStep(w: World, e: Event)
    ensures Apply(w, e).c.issued == ClientAfter(w.c, e).issued >= w.c.issued
  {
  }

  lemma {:induction false} IssuedGrows(w: World, es: seq<Event>)
    ensures w.c.issued <= Run(w, es).c.issued
    decreases |es|
  {
    if es != [] {
      IssuedByStep(w, es[0]);
      IssuedGrows(Apply(w, es[0]), es[1..]);
    }
  }

  lemma {:induction false} RunKeepsInv(w: World, es: seq<Event>)
    requires Inv(w) && Run(w, es).c.issued <= TWO_32
    ensures Inv(Run(w, es))
    decreases |es|
  {
    hide Inv;
    if es != [] {
      IssuedGrows(Apply(w, es[0]), es[1..]);
      IssuedByStep(w, es[0]);
      StepKeepsInv(w, es[0]);
      RunKeepsInv(Apply(w, es[0]), es[1..]);
    }
  }

  // ---------------------------------------------------------------- the results

  /** From the start, through any events, with at most 2^32 calls. */
  lemma Reachable(services: seq<Service>, es: seq<Event>)
    requires Run(Start(services), es).c.issued <= TWO_32
    ensures Inv(Run(Start(services), es))
  {
    RunKeepsInv(Start(services), es);
  }

  /** The pending table: a call without notify whose entry went in is completed at most once, and its id is in
      the table exactly while it is neither completed nor withdrawn. */
  lemma PendingPartition(services: seq<Service>, es: seq<Event>)
    requires Run(Start(services), es).c.issued <= TWO_32
    ensures var c := Run(Start(services), es).c;
      && (forall id <- c.table :: id in c.calls && c.calls[id].Inserted())
      && forall id <- c.calls :: c.calls[id].Inserted() && !c.calls[id].Notify() ==>
           && |FiredBy(c, id)| <= 1
           && (id in c.table <==> FiredBy(c, id) == [] && id !in c.withdrawn)
           && !(FiredBy(c, id) != [] && id in c.withdrawn)
  {
    Reachable(services, es);
    hide Requested, Correlated, Agreement, Marks, Leftovers;
  }

  /** That a failed send withdraws its entry is true of asynchronous calls only: a synchronous call that ends
      so, and that no close has completed, leaves its entry in the table for good. */
  lemma FailedSendWithdrawsIffAsync(services: seq<Service>, es: seq<Event>, id: Id)
    requires Run(Start(services), es).c.issued <= TWO_32
    ensures var c := Run(Start(services), es).c;
      In(c, id, Over) && FiredBy(c, id) == [] ==> (id in c.table <==> !c.calls[id].async)
  {
    Reachable(services, es);
    hide Requested, Correlated, Agreement;
    var c := Run(Start(services), es).c;
    if In(c, id, Over) && FiredBy(c, id) == [] && !c.calls[id].Notify() {
      assert InOnePlace(c, id);
    }
  }

  /** Response correlation: a completion by an answer shows the code and body of the one answer the server gave
      to the request that this very call put on the wire (or, if the body cannot be decoded, says so); a call
      without notify is completed by its own answer or by the close, never by a notification. */
  lemma ResponseCorrelation(services: seq<Service>, es: seq<Event>, id: Id, o: Outcome)
    requires Run(Start(services), es).c.issued <= TWO_32
    ensures var w := Run(Start(services), es);
      o in FiredBy(w.c, id) && o.Outcome? ==>
        && (o.origin == Answered ==>
              && id in w.s.answers && w.s.answers[id].req.id == id && Genuine(w.c, w.s.answers[id].req)
              && o.body == w.s.answers[id].body
              && o.ec == if o.body != [] && !o.decodes then 1004 else w.s.answers[id].code)
        && (id in w.c.calls && !w.c.calls[id].Notify() ==> o.origin == Answered)
  {
    Reachable(services, es);
    hide ClientInv, FindSvc, WireReq, FiredBy;
    var w := Run(Start(services), es);
    if o in FiredBy(w.c, id) && o.Outcome? {
      if o.origin == Answered {
        assert Matches(w.s.answers, id, o);
      } else {
        assert NotifyFor(w.services, w.c, id, o.origin.svc);
      }
    }
  }

  /** Notify agreement. Each registration at the server is for a notify call that resolves to that service, no
      service is registered twice, and the client holds no two marked entries for one name. While the client is
      open it holds a registered entry exactly as long as it has not given the call up after a lost signal. */
  lemma NotifyAgreement(services: seq<Service>, es: seq<Event>)
    requires Run(Start(services), es).c.issued <= TWO_32
    ensures var w := Run(Start(services), es);
      && (forall id, id' :: id in w.s.table && id' in w.s.table && w.s.table[id] == w.s.table[id'] ==> id == id')
      && OneMarkPerService(w.c.table)
      && (forall id <- w.s.table :: NotifyFor(w.services, w.c, id, w.s.table[id]))
      && (w.c.open ==> forall id <- w.s.table ::
            Holds(w.services, w.c, id, w.s.table[id]) <==> !w.c.calls[id].GaveUp())
  {
    Reachable(services, es);
    hide Requested, Correlated, FiredBy, NotifyFor, OneMarkPerService, Partition, Leftovers, Holds;
    var w := Run(Start(services), es);
    if w.c.open {
      forall id <- w.s.table ensures Holds(w.services, w.c, id, w.s.table[id]) <==> !w.c.calls[id].GaveUp() {
        assert NotifyFor(w.services, w.c, id, w.s.table[id]);
        QueuedNotifyIsHeldIff(w.services, w.c, id, w.s.table[id]);
      }
    }
  }

  /** The answer to a pending call completes it, once and for all, and takes its entry out. */
  lemma AnswerCompletesPendingCall(w: World, r: Resp, decodes: bool)
    requires Inv(w) && w.c.open && r in w.toClient
    requires r.id in w.c.table && !w.c.calls[r.id].Notify()
    ensures var c' := AfterHandle(w, r, decodes).c;
      && r.id !in c'.table && FiredBy(c', r.id) == [OutcomeOf(r, decodes)]
      && forall id :: id != r.id ==> FiredBy(c', id) == FiredBy(w.c, id) && (id in c'.table <==> id in w.c.table)
  {
    hide Requested, Correlated, Agreement, OneMarkPerService, Leftovers;
    assert InOnePlace(w.c, r.id);
  }

  /** What a response does to a standing notify call, be it a push or the server's refusal to register it: it is
      shown to the callback, and the table stays as it was, entry and mark included. */
  lemma NotifyIsCompletedInPlace(w: World, r: Resp, decodes: bool)
    requires Inv(w) && w.c.open && r in w.toClient && r.id in w.c.calls && Standing(w.c.calls[r.id])
    ensures var c' := AfterHandle(w, r, decodes).c;
      && c'.table == w.c.table && c'.calls == w.c.calls
      && FiredBy(c', r.id) == FiredBy(w.c, r.id) + [OutcomeOf(r, decodes)]
      && forall id :: id != r.id ==> FiredBy(c', id) == FiredBy(w.c, id)
  {
    hide Requested, Correlated, Agreement, Partition, OneMarkPerService, Leftovers, FindSvc, WireName;
  }

  /** A response to a call whose mark is down takes the entry, if it is still there. */
  lemma GivenUpIsUsedUp(c: Client, id: Id, o: Outcome)
    requires Marks(c) && id in c.calls && !Standing(c.calls[id])
    ensures var c' := AfterResponseTo(c, id, o);
      && c'.table == c.table - {id} && c'.calls == c.calls
      && FiredBy(c', id) == FiredBy(c, id) + (if id in c.table then [o] else [])
      && forall other :: other != id ==> FiredBy(c', other) == FiredBy(c, other)
  {
    assert FiredBy(c, id) + [] == FiredBy(c, id);
  }

  /** A push on service `svc` only ever completes a controller that was registered for `svc`. It completes it and
      leaves the entry registered exactly if the call has not been given up; otherwise the entry, if it is still
      there, is used up, and if it is not the push reaches nobody. */
  lemma PushCompletesItsOwn(w: World, r: Resp, decodes: bool)
    requires Inv(w) && w.c.open && r in w.toClient && r.origin.Pushed?
    ensures NotifyFor(w.services, w.c, r.id, r.origin.svc)
    ensures var c' := AfterHandle(w, r, decodes).c;
      && (Holds(w.services, c', r.id, r.origin.svc) <==> !w.c.calls[r.id].GaveUp())
      && c'.table == (if w.c.calls[r.id].GaveUp() then w.c.table - {r.id} else w.c.table)
      && FiredBy(c', r.id) == FiredBy(w.c, r.id) + (if r.id in w.c.table then [OutcomeOf(r, decodes)] else [])
      && (r.id in w.c.table || w.c.calls[r.id].GaveUp())
      && forall id :: id != r.id ==> FiredBy(c', id) == FiredBy(w.c, id)
  {
    assert NotifyFor(w.services, w.c, r.id, r.origin.svc) by { hide ClientInv, FiredBy, NotifyFor; }
    hide Requested, Correlated, Agreement, Partition, OneMarkPerService, Leftovers, FindSvc, WireName;
    QueuedNotifyIsHeldIff(w.services, w.c, r.id, r.origin.svc);
    if Standing(w.c.calls[r.id]) {
      NotifyIsCompletedInPlace(w, r, decodes);
      hide FiredBy, AfterResponseTo, Ids, Marks;
    } else {
      GivenUpIsUsedUp(w.c, r.id, OutcomeOf(r, decodes));
      hide FiredBy, AfterResponseTo, Ids, Marks, Standing;
    }
  }

  /** No signal was lost for this call. */
  predicate SignalKept(e: Event, id: Id) { e.Transmit? && e.id == id ==> e.how != Unsignalled }

  lemma {:induction false} NeverGivenUp(w: World, es: seq<Event>, id: Id)
    requires (forall e <- es :: SignalKept(e, id)) && (id in w.c.calls ==> !w.c.calls[id].GaveUp())
    requires id in w.c.calls ==> w.c.calls[id].sending != Some(Unsignalled)
    ensures id in Run(w, es).c.calls ==> !Run(w, es).c.calls[id].GaveUp()
    decreases |es|
  {
    if es != [] {
      UnsignalledOnlyBySend(w, es[0], id);
      NeverGivenUp(Apply(w, es[0]), es[1..], id);
    }
  }

  lemma UnsignalledOnlyBySend(w: World, e: Event, id: Id)
    requires SignalKept(e, id) && (id in w.c.calls ==> w.c.calls[id].sending != Some(Unsignalled))
    ensures id in Apply(w, e).c.calls ==> Apply(w, e).c.calls[id].sending != Some(Unsignalled)
  {
    hide Decide, Insert;
  }

  /** Where the signals of all sends get through, the agreement is complete. */
  lemma NotifyAgreementWithSignals(services: seq<Service>, es: seq<Event>)
    requires Run(Start(services), es).c.issued <= TWO_32 && forall e <- es, id: Id :: SignalKept(e, id)
    ensures var w := Run(Start(services), es);
      w.c.open ==> forall id <- w.s.table :: Holds(w.services, w.c, id, w.s.table[id])
  {
    hide Run, Holds, FindSvc;
    NotifyAgreement(services, es);
    forall id: Id { NeverGivenUp(Start(services), es, id); }
  }

  /** Calls whose sending is over, well or badly, stay as they are. */
  predicate Settled(c: Client, id: Id) { In(c, id, Sent) || In(c, id, Over) }

  lemma EnterKeepsSettled(c: Client, id: Id, settled: Id)
    requires Settled(c, settled)
    ensures Settled(AfterEnter(c, id), settled) && AfterEnter(c, id).calls[settled] == c.calls[settled]
  {
    hide Insert;
  }

  lemma BeginKeepsSettled(c: Client, service: CStr, methodName: CStr, body: Bytes, async: bool, id: Id)
    requires Ids(c) && AfterBegin(c, service, methodName, body, async).issued <= TWO_32 && Settled(c, id)
    ensures var c' := AfterBegin(c, service, methodName, body, async); Settled(c', id) && c'.calls[id] == c.calls[id]
  {
    FreshId(c);
  }

  lemma ClientKeepsSettled(c: Client, e: Event, id: Id)
    requires Ids(c) && MayIssue(c, e) && Settled(c, id)
    ensures Settled(ClientAfter(c, e), id) && ClientAfter(c, e).calls[id] == c.calls[id]
  {
    hide Ids, AfterEnter, AfterBegin;
    match e
    case Begin(service, methodName, body, async) => BeginKeepsSettled(c, service, methodName, body, async, id);
    case Enter(entered) => EnterKeepsSettled(c, entered, id);
    case _ =>
  }

  lemma StepKeepsSettled(w: World, e: Event, id: Id)
    requires Ids(w.c) && MayIssue(w.c, e) && Settled(w.c, id)
    ensures Settled(Apply(w, e).c, id) && Apply(w, e).c.calls[id] == w.c.calls[id]
    ensures Apply(w, e).services == w.services
  {
    ClientKeepsSettled(w.c, e, id);
    hide Ids, ClientAfter, Decide, Registered, WireReq, MayIssue, Settled, In;
    if e.Handle? {
      CompletionAdds(w.c, e.resp.id, OutcomeOf(e.resp, e.decodes));
      hide AfterResponseTo;
      assert Apply(w, e).c.calls == w.c.calls;
      SettledByCalls(w.c, Apply(w, e).c, id);
    }
  }

  lemma SettledByCalls(c: Client, c': Client, id: Id)
    requires Settled(c, id) && c'.calls == c.calls
    ensures Settled(c', id)
  {
  }

  lemma {:induction false} RunKeepsSettled(w: World, es: seq<Event>, id: Id)
    requires Inv(w) && Run(w, es).c.issued <= TWO_32 && Settled(w.c, id)
    ensures id in Run(w, es).c.calls && Run(w, es).c.calls[id] == w.c.calls[id]
    ensures Run(w, es).services == w.services
    decreases |es|
  {
    hide Requested, Correlated, Agreement, Ids, Partition, Marks, OneMarkPerService, Leftovers, Apply, ClientAfter;
    if es != [] {
      IssuedGrows(Apply(w, es[0]), es[1..]);
      IssuedByStep(w, es[0]);
      StepKeepsInv(w, es[0]);
      StepKeepsSettled(w, es[0], id);
      RunKeepsSettled(Apply(w, es[0]), es[1..], id);
    }
  }

  // ---------------------------------------------------------------- who is never completed again

  /** Its sending is over, and it has no entry. */
  predicate Gone(c: Client, id: Id) { Settled(c, id) && id !in c.table }

  /** A client that has closed, or a call that is gone. */
  predicate Silent(c: Client, id: Id) { !c.open || Gone(c, id) }

  lemma ClientStepKeepsSilence(c: Client, e: Event, id: Id)
    requires Ids(c) && MayIssue(c, e) && Silent(c, id)
    ensures Silent(ClientAfter(c, e), id) && FiredBy(ClientAfter(c, e), id) == FiredBy(c, id)
  {
    if Settled(c, id) {
      ClientKeepsSettled(c, e, id);
    }
    hide Repeats;
  }

  lemma StepKeepsSilence(w: World, e: Event, id: Id)
    requires Ids(w.c) && MayIssue(w.c, e) && Silent(w.c, id)
    ensures Silent(Apply(w, e).c, id) && FiredBy(Apply(w, e).c, id) == FiredBy(w.c, id)
  {
    ClientStepKeepsSilence(w.c, e, id);
    hide Ids, ClientAfter, Decide, Registered, WireReq, MayIssue;
  }

  lemma {:induction false} RunKeepsSilence(w: World, es: seq<Event>, id: Id)
    requires Inv(w) && Run(w, es).c.issued <= TWO_32 && Silent(w.c, id)
    ensures Silent(Run(w, es).c, id) && FiredBy(Run(w, es).c, id) == FiredBy(w.c, id)
    decreases |es|
  {
    hide Requested, Correlated, Agreement, Ids, Partition, Marks, OneMarkPerService, Leftovers, Apply, ClientAfter,
      Silent, FiredBy;
    if es != [] {
      IssuedGrows(Apply(w, es[0]), es[1..]);
      IssuedByStep(w, es[0]);
      StepKeepsInv(w, es[0]);
      StepKeepsSilence(w, es[0], id);
      RunKeepsSilence(Apply(w, es[0]), es[1..], id);
    }
  }

  lemma CloseFires(c: Client, id: Id)
    requires Ids(c) && c.open
    ensures !AfterClose(c).open
    ensures FiredBy(AfterClose(c), id) == FiredBy(c, id) + if id in c.table then [NetworkError] else []
  {
    assert FiredBy(c, id) + [] == FiredBy(c, id);
  }

  /** The close completes exactly the calls in the table, each once, and is the last there is: in whatever run
      follows, calls that were on their way included, nobody's callback is called any more. */
  lemma CloseCompletesPendingCalls(w: World, es: seq<Event>, id: Id)
    requires Inv(w) && w.c.open && Run(Apply(w, Close), es).c.issued <= TWO_32
    ensures FiredBy(Run(Apply(w, Close), es).c, id) == FiredBy(w.c, id) + if id in w.c.table then [NetworkError] else []
  {
    assert Ids(w.c) by { hide Requested, Correlated, Agreement; }
    CloseFires(w.c, id);
    CloseIsTheClients(w);
    hide Inv, Ids, Apply, AfterClose, FiredBy, Run, MayIssue;
    StepKeepsInv(w, Close);
    RunKeepsSilence(Apply(w, Close), es, id);
  }

  lemma CloseIsTheClients(w: World)
    requires Ids(w.c)
    ensures Apply(w, Close).c == AfterClose(w.c) && MayIssue(w.c, Close)
  {
  }

  /** What `call_method` has returned, if it has; that a synchronous call waits is not seen here. */
  function ReturnCode(k: Call): Option<int> {
    match k.phase
    case Refused => Some(-3)
    case Sent => Some(0)
    case Over => Some(if k.async then -4 else 0)
    case _ => None
  }

  /** What the error of an asynchronous call is worth. From then on its callback is never called again, in any run;
      a call without notify has been completed before, once, exactly if its withdrawal found the entry gone. */
  lemma AfterTheError(w: World, es: seq<Event>, id: Id)
    requires Inv(w) && Run(w, es).c.issued <= TWO_32
    requires id in w.c.calls && ReturnCode(w.c.calls[id]) == Some(-4)
    ensures FiredBy(Run(w, es).c, id) == FiredBy(w.c, id)
    ensures !w.c.calls[id].Notify() ==> |FiredBy(w.c, id)| == if id in w.c.withdrawn then 0 else 1
  {
    assert Gone(w.c, id) by { hide Requested, Correlated, Agreement, Partition, Marks, OneMarkPerService; }
    RunKeepsSilence(w, es, id);
    hide Requested, Correlated, Agreement, Marks, OneMarkPerService, Run;
    assert !w.c.calls[id].Notify() ==> InOnePlace(w.c, id);
  }

  /** And it can have been: a close that comes between the failed send and the withdrawal completes the call with
      the network error, and the call returns its error all the same. */
  lemma CompletedAndFailed(c: Client, id: Id)
    requires ClientInv(c) && c.open && In(c, id, Failing) && id in c.table
    ensures var c' := AfterWithdraw(AfterUnmark(AfterClose(c), id), id);
      && id in c'.calls && ReturnCode(c'.calls[id]) == Some(-4)
      && FiredBy(c', id) == FiredBy(c, id) + [NetworkError] && id !in c'.withdrawn
  {
    assert c.calls[id].async && id !in c.withdrawn by { hide Ids, Partition, Marks, OneMarkPerService; }
    CloseFires(c, id) by { hide Partition, Marks, OneMarkPerService, Leftovers; }
    hide ClientInv, FiredBy;
    ClosesWhileFailing(c, id);
  }

  lemma ClosesWhileFailing(c: Client, id: Id)
    requires c.open && In(c, id, Failing) && c.calls[id].async
    ensures var c' := AfterWithdraw(AfterUnmark(AfterClose(c), id), id);
      && id in c'.calls && ReturnCode(c'.calls[id]) == Some(-4)
      && c'.withdrawn == c.withdrawn && FiredBy(c', id) == FiredBy(AfterClose(c), id)
  {
    var c1 := AfterClose(c);
    assert In(c1, id, Failing) && c1.table == map[] && c1.withdrawn == c.withdrawn && c1.calls == c.calls;
    hide AfterClose;
    var c2 := AfterUnmark(c1, id);
    assert In(c2, id, Unmarked) && c2.table == map[] && c2.withdrawn == c1.withdrawn && c2.fired == c1.fired;
  }

  /** A later notify call for the same name, wherever it gets to insert its entry, is refused. */
  ghost predicate RefusesRetries(c: Client, id: Id) {
    id in c.calls && forall again ::
      In(c, again, Begun) && c.calls[again].Notify() && c.calls[again].service == c.calls[id].service ==>
        In(AfterEnter(c, again), again, Refused)
  }

  lemma SentNotifyStands(services: seq<Service>, c: Client, id: Id)
    requires Ids(c) && Marks(c) && c.open && In(c, id, Sent) && c.calls[id].Notify()
    ensures id in c.table && c.table[id] == Entry(ENOTIFY_MARK, c.calls[id].service) && RefusesRetries(c, id)
    ensures forall svc :: NotifyFor(services, c, id, svc) ==> Holds(services, c, id, svc)
  {
    hide FindSvc, WireName;
    assert Standing(c.calls[id]);
    assert Marked(c.table, id);
  }

  /** Once a notify request was sent, its entry stands, marked, through every run until the close, and blocks every
      other notify for that name: not only where the server registers it, but equally where the server rejects the
      request or never sees it. */
  lemma HeldUntilClose(w: World, es: seq<Event>, id: Id)
    requires Inv(w) && In(w.c, id, Sent) && w.c.calls[id].Notify() && Run(w, es).c.issued <= TWO_32
    ensures var c := Run(w, es).c; c.open ==>
      && id in c.table && c.table[id] == Entry(ENOTIFY_MARK, w.c.calls[id].service)
      && RefusesRetries(c, id)
      && forall svc :: NotifyFor(w.services, w.c, id, svc) ==> Holds(w.services, c, id, svc)
  {
    RunKeepsSettled(w, es, id);
    RunKeepsInv(w, es);
    hide Run, Requested, Correlated, Agreement, Partition, Leftovers, OneMarkPerService, FindSvc, WireName, Ids, Marks,
      Holds, RefusesRetries;
    if Run(w, es).c.open {
      SentNotifyStands(w.services, Run(w, es).c, id);
    }
  }

  // ---------------------------------------------------------------- a registration nobody holds

  /** `id` is the one registration for `svc`. */
  predicate Registers(s: Server, id: Id, svc: nat) {
    s.open ==> id in s.table && s.table[id] == svc
  }

  /** The request of a registered call, should it come again, asks for the very same registration. */
  lemma RegistersTheSame(w: World, req: Req, svc: nat)
    requires Genuine(w.c, req) && FindSvc(w.services, req.service) == Some(svc)
    requires req.id in w.s.table && NotifyFor(w.services, w.c, req.id, w.s.table[req.id])
    ensures w.s.table[req.id] == svc
  {
    hide FindSvc, WireName;
  }

  lemma ServeKeepsRegistration(w: World, req: Req, fate: Fate, id: Id, svc: nat)
    requires Inv(w) && id in w.s.table && w.s.table[id] == svc
    ensures id in AfterServe(w, req, fate).s.table && AfterServe(w, req, fate).s.table[id] == svc
  {
    hide ClientInv, Correlated, FindSvc, Genuine, NotifyFor, FiredBy;
    if w.s.open && req in w.toServer {
      var d := Decide(w.services, req.service, req.methodName, req.body, fate);
      if d.Register? && req.id == id {
        RegistersTheSame(w, req, d.svc);
      }
      assert svc in w.s.table.Values;
    }
  }

  lemma StepKeepsRegistration(w: World, e: Event, id: Id, svc: nat)
    requires Inv(w) && id in w.s.table && w.s.table[id] == svc
    ensures Registers(Apply(w, e).s, id, svc)
  {
    hide Inv, AfterServe, ClientAfter, AfterResponseTo;
    if e.Serve? {
      ServeKeepsRegistration(w, e.req, e.fate, id, svc);
    }
  }

  lemma {:induction false} ClosedStaysClosed(w: World, es: seq<Event>)
    requires !w.s.open
    ensures !Run(w, es).s.open
    decreases |es|
  {
    hide ClientAfter, AfterResponseTo, Decide;
    if es != [] {
      ClosedStaysClosed(Apply(w, es[0]), es[1..]);
    }
  }

  lemma {:induction false} RunKeepsRegistration(w: World, es: seq<Event>, id: Id, svc: nat)
    requires Inv(w) && Registers(w.s, id, svc) && Run(w, es).c.issued <= TWO_32
    ensures Registers(Run(w, es).s, id, svc)
    decreases |es|
  {
    hide Inv, Apply, ClientAfter;
    if !w.s.open {
      ClosedStaysClosed(w, es);
    } else if es != [] {
      IssuedGrows(Apply(w, es[0]), es[1..]);
      IssuedByStep(w, es[0]);
      StepKeepsInv(w, es[0]);
      StepKeepsRegistration(w, es[0], id, svc);
      RunKeepsRegistration(Apply(w, es[0]), es[1..], id, svc);
    }
  }

  /** What a registration costs whose call gave up after a lost signal: in every run until the server closes it
      stays the only one for its service, so no retry gets one, and every push for the service is addressed to it
      and reaches nobody. */
  lemma DeadRegistrationStays(w: World, es: seq<Event>, id: Id, svc: nat)
    requires Inv(w) && id in w.s.table && w.s.table[id] == svc && In(w.c, id, Over)
    requires Run(w, es).c.issued <= TWO_32
    ensures var w' := Run(w, es); w'.s.open ==>
      && (forall other :: other in w'.s.table && w'.s.table[other] == svc <==> other == id)
      && (forall o :: AfterResponseTo(w'.c, id, o) == w'.c)
  {
    assert NotifyFor(w.services, w.c, id, svc) by { hide ClientInv, FiredBy, NotifyFor; }
    assert w.c.calls[id].Notify() && w.c.calls[id].async by { hide FindSvc, FiredBy, Partition, Requested, Correlated; }
    RunKeepsSettled(w, es, id);
    RunKeepsRegistration(w, es, id, svc);
    RunKeepsInv(w, es);
    hide Run, Requested, Correlated, Partition, OneMarkPerService, FindSvc, WireName, FiredBy, NotifyFor;
  }

  /** The client's part of a notify call that loses its signal, from the inserted entry on. */
  lemma GivingUp(c: Client, id: Id)
    requires Ids(c) && Marks(c) && c.open && In(c, id, Entered) && c.calls[id].Notify()
    ensures var c' := AfterWithdraw(AfterUnmark(AfterSend(c, id, Unsignalled), id), id);
      c'.open && In(c', id, Over) && id !in c'.table
  {
    hide Ids;
    assert Standing(c.calls[id]);
    var c1 := AfterSend(c, id, Unsignalled);
    assert In(c1, id, Failing) && c1.table == c.table;
    var c2 := AfterUnmark(c1, id);
    assert In(c2, id, Unmarked) && c2.table == c.table[id := Entry(ENOERROR, [])];
  }

  /** The client's part, in the whole: only the request is added. */
  lemma GivingUpSends(w: World, id: Id)
    requires Ids(w.c) && Marks(w.c) && w.c.open && In(w.c, id, Entered) && w.c.calls[id].Notify()
    ensures var w' := Apply(Apply(Apply(w, Transmit(id, Unsignalled)), Unmark(id)), Withdraw(id));
      && w'.c.open && In(w'.c, id, Over) && id !in w'.c.table
      && w'.s == w.s && w'.services == w.services
      && w'.toServer == w.toServer + multiset{WireReq(id, w.c.calls[id])}
  {
    GivingUp(w.c, id);
    hide Ids, Marks, WireReq, AfterSend, AfterUnmark, AfterWithdraw;
  }

  /** The server's part. */
  lemma ServingRegisters(w: World, req: Req, svc: nat, fate: Fate)
    requires w.s.open && req in w.toServer && req.methodName == NOTIFY && req.body == []
    requires FindSvc(w.services, req.service) == Some(svc)
    requires svc < |w.services| && NOTIFY in w.services[svc].methods && svc !in w.s.table.Values
    ensures var w' := Apply(w, Serve(req, fate)); w'.c == w.c && w'.s == w.s.(table := w.s.table[req.id := svc])
  {
    hide FindSvc;
  }

  /** A dead registration is one lost signal away from every state in which a notify call has its entry in and the
      server knows the service but has nobody registered for it: the call returns with an error and withdraws its
      entry, and the request is sent and served all the same. */
  lemma LostSignalLeavesDeadRegistration(w: World, id: Id, svc: nat, fate: Fate)
    requires Inv(w) && w.c.open && w.s.open && In(w.c, id, Entered) && w.c.calls[id].Notify()
    requires w.c.calls[id].body == [] && FindSvc(w.services, WireName(w.c.calls[id].service)) == Some(svc)
    requires svc < |w.services| && NOTIFY in w.services[svc].methods && svc !in w.s.table.Values
    ensures var w' := Run(w, [Transmit(id, Unsignalled), Unmark(id), Withdraw(id),
                              Serve(WireReq(id, w.c.calls[id]), fate)]);
      w'.c.open && w'.s.open && w'.s.table == w.s.table[id := svc] && In(w'.c, id, Over) && id !in w'.c.table
  {
    var req := WireReq(id, w.c.calls[id]);
    hide Requested, Correlated, Agreement, FindSvc, WireName, Ids, Marks, Partition, Leftovers, Apply, Run;
    NotifyOnTheWire(w.c.calls[id]);
    GivingUpSends(w, id);
    ServingRegisters(Apply(Apply(Apply(w, Transmit(id, Unsignalled)), Unmark(id)), Withdraw(id)), req, svc, fate);
    RunFour(w, Transmit(id, Unsignalled), Unmark(id), Withdraw(id), Serve(req, fate));
  }

  lemma RunFour(w: World, e: Event, f: Event, g: Event, h: Event)
    ensures Run(w, [e, f, g, h]) == Apply(Apply(Apply(Apply(w, e), f), g), h)
  {
    hide Apply;
    assert [e, f, g, h][1..] == [f, g, h] && [f, g, h][1..] == [g, h] && [g, h][1..] == [h] && [h][1..] == [];
    assert Run(w, [e, f, g, h]) == Run(Apply(w, e), [f, g, h]);
    assert Run(Apply(w, e), [f, g, h]) == Run(Apply(Apply(w, e), f), [g, h]);
    var w3 := Apply(Apply(Apply(w, e), f), g);
    assert Run(Apply(Apply(w, e), f), [g, h]) == Run(w3, [h]) == Run(Apply(w3, h), []);
  }

  /** Left alone, the sections of one call add up to what `call_method` does in one go. */
  lemma UndisturbedCall(c: Client, id: Id, how: Sending)
    requires Ids(c) && In(c, id, Begun) && c.open
    ensures var c' := AfterWithdraw(AfterUnmark(AfterSend(AfterEnter(c, id), id, how), id), id);
      var k := c.calls[id];
      var r := CallResult(c.table, id, EntryOf(k), k.async, if how == Accepted then 0 else -3);
      c'.table == r.1 && id in c'.calls && ReturnCode(c'.calls[id]) == Some(r.0)
  {
    hide Repeats, Ids;
    assert id !in c.table by { NoEntryYet(c, id); }
    var c1 := AfterEnter(c, id);
    if In(c1, id, Entered) {
      UndisturbedSend(c1, id, how);
    }
  }

  lemma NoEntryYet(c: Client, id: Id)
    requires Ids(c) && In(c, id, Begun)
    ensures id !in c.table
  {
  }

  /** From the inserted entry on. */
  lemma UndisturbedSend(c: Client, id: Id, how: Sending)
    requires In(c, id, Entered) && c.open && id in c.table
    ensures AfterWithdraw(AfterUnmark(AfterSend(c, id, how), id), id).table
         == if c.calls[id].async && how != Accepted then c.table - {id} else c.table
    ensures var c' := AfterWithdraw(AfterUnmark(AfterSend(c, id, how), id), id);
      id in c'.calls && ReturnCode(c'.calls[id]) == Some(if c.calls[id].async && how != Accepted then -4 else 0)
  {
    if c.calls[id].async && how != Accepted {
      assert AfterUnmark(AfterSend(c, id, how), id).table == c.table[id := Entry(ENOERROR, [])];
    }
  }
}
