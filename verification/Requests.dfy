/** The two request tables of a channel, as values: pending calls on the client, notify registrations on the
    server. Each function is one section that the source runs under `mutex_requests_`. */
module Requests {
  import opened Base

  type Id = U32
  type CStr = s: Bytes | 0 !in s witness []

  const NOTIFY: CStr := [0x6e, 0x6f, 0x74, 0x69, 0x66, 0x79]  // "notify"
  const ENOTIFY_MARK := 9876

  const ENOERROR := 0
  const ENOSERVICE := 1001
  const ENOMETHOD := 1002
  const EREQUEST := 1003
  const ERESPONSE := 1004
  const EMETHODCALL := 1005
  const ENETWORK := 1006
  const EINTERNAL := 1007

  /** `strncpy` into the 64-byte name fields of a request. */
  function WireName(s: CStr): (name: Name)
    ensures name <= s && |name| == if |s| <= 63 then |s| else 63
  {
    if |s| <= 63 then s else
    assert forall b <- s[..63] :: b in s;
    s[..63]
  }

  // ---------------------------------------------------------------- the client's table

  /** What the table operations read of a controller: its code, which doubles as the notify mark, and its text. */
  datatype Entry = Entry(ec: int, text: Bytes)
  type Table = map<Id, Entry>

  predicate Marked(t: Table, id: Id) { id in t && t[id].ec != 0 }

  /** Some live notify entry is for this very service name. */
  ghost predicate Repeats(t: Table, service: Bytes) {
    exists id :: Marked(t, id) && t[id].text == service
  }

  /** No two live notify entries for one name. */
  ghost predicate OneMarkPerService(t: Table) {
    forall id, id' :: Marked(t, id) && Marked(t, id') && t[id].text == t[id'].text ==> id == id'
  }

  /** The section of `call_method`: a repeated notify is refused. */
  ghost function Insert(t: Table, id: Id, e: Entry): Option<Table> {
    if e.ec != 0 && Repeats(t, e.text) then None else Some(t[id := e])
  }

  /** An entry without a mark goes in, whatever the table holds; a marked one is refused exactly if some marked
      entry has its name; and nothing else changes. */
  lemma InsertRefusesOnlyRepeats(t: Table, id: Id, e: Entry)
    ensures Insert(t, id, e).None?
      <==> e.ec != 0 && exists other :: other in t && t[other].ec != 0 && t[other].text == e.text
    ensures var r := Insert(t, id, e); r.Some? ==>
      && r.value.Keys == t.Keys + {id} && r.value[id] == e
      && forall other <- t :: other != id ==> r.value[other] == t[other]
  {
    assert forall other :: other in t && t[other].ec != 0 <==> Marked(t, other);
  }

  /** What `call_method` returns and leaves in the table, from the insertion on: a repeated notify is refused, a
      failed send is undone for a call with a callback and goes unnoticed for one without. */
  ghost function CallResult(t: Table, id: Id, e: Entry, async: bool, sent: int): (int, Table) {
    match Insert(t, id, e)
    case None => (-3, t)
    case Some(t') => if async && sent != 0 then (-4, t' - {id}) else (0, t')
  }

  /** `remove_request`: an unmarked entry goes, a marked one stays. */
  function Removed(t: Table, id: Id): Table {
    if id in t && t[id].ec == 0 then t - {id} else t
  }

  /** `process_response`: remove, complete, and put the mark of a notify entry back. */
  function AfterResponse(t: Table, id: Id): Table {
    if Marked(t, id) then t[id := Entry(ENOTIFY_MARK, t[id].text)] else Removed(t, id)
  }

  /** The code a completed controller shows. */
  function OutcomeCode(code: int, body: Bytes, decodes: bool): int {
    if body != [] && !decodes then ERESPONSE else code
  }

  // ---------------------------------------------------------------- the server's side

  datatype Service = Service(name: CStr, methods: set<Bytes>)

  /** The request name is compared over its own length only, so it selects the first service it is a prefix of. */
  function FindSvc(services: seq<Service>, name: Bytes): Option<nat> {
    FindSvcFrom(services, name, 0)
  }

  function FindSvcFrom(services: seq<Service>, name: Bytes, i: nat): Option<nat>
    requires i <= |services|
    decreases |services| - i
  {
    if i == |services| then None
    else if name <= services[i].name then Some(i)
    else FindSvcFrom(services, name, i + 1)
  }

  /** `s` is the first service of whose name `name` is a prefix. */
  ghost predicate IsFirst(services: seq<Service>, name: Bytes, s: int) {
    && 0 <= s < |services| && name <= services[s].name
    && forall k :: 0 <= k < s ==> !(name <= services[k].name)
  }

  lemma {:induction false} FindSvcFromIsFirst(services: seq<Service>, name: Bytes, i: nat)
    requires i <= |services|
    ensures match FindSvcFrom(services, name, i)
            case None => forall k :: i <= k < |services| ==> !(name <= services[k].name)
            case Some(s) =>
              i <= s < |services| && name <= services[s].name && forall k :: i <= k < s ==> !(name <= services[k].name)
    decreases |services| - i
  {
    if i < |services| && !(name <= services[i].name) {
      FindSvcFromIsFirst(services, name, i + 1);
    }
  }

  /** A call reaches the service it names exactly when no earlier name begins with what the 64-byte field of the
      request keeps of that name. */
  lemma FindSvcFindsItself(services: seq<Service>, s: nat)
    requires s < |services|
    ensures FindSvc(services, WireName(services[s].name)) == Some(s)
      <==> forall k :: 0 <= k < s ==> !(WireName(services[s].name) <= services[k].name)
  {
    FindSvcFromIsFirst(services, WireName(services[s].name), 0);
  }

  /** Behind "ab", a service called "a" is out of reach: its own name selects the other one. */
  lemma ShadowedService()
    ensures FindSvc([Service([97, 98], {}), Service([97], {})], [97]) == Some(0)
  {
    FindSvcFromIsFirst([Service([97, 98], {}), Service([97], {})], [97], 0);
    assert [97] <= [97, 98];
  }

  /** 63 times "a", then one more letter. */
  function LongName(last: Byte): CStr
    requires last != 0
  {
    seq(63, i => 97) + [last]
  }

  /** Two names that differ in the 64th byte only: neither begins with the other, and both reach the first. */
  lemma CutNameReachesOther()
    ensures var services := [Service(LongName(98), {}), Service(LongName(99), {})];
      !(services[1].name <= services[0].name) && FindSvc(services, WireName(services[1].name)) == Some(0)
  {
    var services := [Service(LongName(98), {}), Service(LongName(99), {})];
    assert services[1].name[63] != services[0].name[63];
    assert WireName(services[1].name) == seq(63, i => 97) <= services[0].name;
    FindSvcFromIsFirst(services, WireName(services[1].name), 0);
  }

  /** How handing a packet to the connection ends: it is queued for the loop; it is refused and not queued; or the
      wake-up signal fails, which the caller sees as a failure although the packet stays queued. */
  datatype Sending = Accepted | Declined | Unsignalled

  /** What becomes of the request message: decoded and served, not decodable, or no memory for a controller. */
  datatype Fate = Runs | Undecodable | NoMemory

  datatype Decision = Reject(code: int) | Register(svc: nat) | Execute(svc: nat)

  function Decide(services: seq<Service>, service: Bytes, methodName: Bytes, body: Bytes, fate: Fate): Decision {
    match FindSvc(services, service)
    case None => Reject(ENOSERVICE)
    case Some(s) =>
      FindSvcFromIsFirst(services, service, 0);
      if methodName !in services[s].methods then Reject(ENOMETHOD)
      else if methodName == NOTIFY && body == [] then Register(s)
      else if body != [] && fate == Undecodable then Reject(EREQUEST)
      else if fate == NoMemory then Reject(EINTERNAL)
      else Execute(s)
  }

  /** Which requests are refused, with which code, which register, and which are executed, and by whom. */
  lemma DecisionByCases(
    services: seq<Service>, service: Bytes, methodName: Bytes, body: Bytes, fate: Fate, s: nat)
    ensures var d := Decide(services, service, methodName, body, fate);
      && ((forall k :: 0 <= k < |services| ==> !(service <= services[k].name)) ==> d == Reject(1001))
      && (IsFirst(services, service, s) ==>
            && (methodName !in services[s].methods ==> d == Reject(1002))
            && (methodName in services[s].methods && methodName == NOTIFY && body == [] ==> d == Register(s))
            && (methodName in services[s].methods && !(methodName == NOTIFY && body == []) ==>
                  && (body != [] && fate == Undecodable ==> d == Reject(1003))
                  && ((body == [] || fate != Undecodable) && fate == NoMemory ==> d == Reject(1007))
                  && ((body == [] || fate != Undecodable) && fate != NoMemory ==> d == Execute(s))))
  {
    FindSvcFromIsFirst(services, service, 0);
  }

  /** The registration section of `process_request`: the first id per service wins. */
  function Registered(t: map<Id, nat>, id: Id, svc: nat): map<Id, nat> {
    if svc in t.Values then t else t[id := svc]
  }
}
