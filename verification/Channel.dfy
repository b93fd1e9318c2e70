/** `RpcChannel`: the request table of the client side and of the server side, and the loops that scan them. */
module Channel {
  import opened Base
  import opened Requests
  import opened Handshake

  /** Why a synchronous caller's wait ends: the time is up, for no reason, its reply has come, or the connection
      was closed. */
  datatype Waking = TimedOut | Spuriously | Replied(code: int, body: Bytes, decodes: bool) | Closed

  /** What the loop shows a sleeping caller before it wakes. */
  function Shown(waking: Waking, hasResponse: bool): seq<int> {
    match waking
    case Replied(code, body, decodes) => [if body != [] && hasResponse && !decodes then ERESPONSE else code]
    case Closed => [ENETWORK]
    case _ => []
  }

  /** What the wait for call `id` leaves in the table. */
  function AfterWaking(t: Table, id: Id, waking: Waking): Table {
    match waking
    case Replied(_, _, _) => t - {id}
    case Closed => map[]
    case _ => t
  }

  class ClientChannel {
    var id: U32
    var connected: bool
    var requests: map<Id, RpcController>

    /** No controller stands in two entries. */
    ghost predicate Valid()
      reads `requests
    {
      forall i, j :: i in requests && j in requests && requests[i] == requests[j] ==> i == j
    }

    ghost function View(): Table
      reads `requests, requests.Values
    {
      map i | i in requests :: Entry(requests[i].ec, requests[i].text)
    }

    constructor ()
      ensures Valid() && requests == map[] && id == 0 && connected
    {
      id, connected, requests := 0, true, map[];
    }

    /** The scan for a live notify entry of the same service. */
    method HasNotify(service: Bytes) returns (found: bool)
      ensures found <==> Repeats(View(), service)
      ensures found <==> exists i :: i in requests && requests[i].ec != 0 && requests[i].text == service
    {
      var rest := requests.Keys;
      while rest != {}
        invariant rest <= requests.Keys
        invariant forall i <- requests.Keys - rest :: !(requests[i].ec != 0 && requests[i].text == service)
        decreases |rest|
      {
        var i :| i in rest;
        if requests[i].ec != 0 && service == requests[i].text {
          assert Marked(View(), i);
          return true;
        }
        rest := rest - {i};
      }
      return false;
    }

    method RemoveRequest(rid: Id) returns (ctrl: RpcController?)
      requires Valid()
      modifies this`requests
      ensures Valid() && View() == Removed(old(View()), rid)
      ensures ctrl == if rid in old(requests) then old(requests[rid]) else null
      ensures requests == if ctrl != null && ctrl.ec == 0 then old(requests) - {rid} else old(requests)
    {
      ctrl := null;
      if rid in requests {
        ctrl := requests[rid];
        if ctrl.ec == 0 {
          requests := requests - {rid};
        }
      }
    }

    /** The locked section of `call_method`. */
    method InsertEntry(rid: Id, ctrl: RpcController) returns (ok: bool)
      requires Valid() && ctrl !in requests.Values
      modifies `requests
      ensures Valid()
      ensures match Insert(old(View()), rid, Entry(ctrl.ec, ctrl.text))
              case None => !ok && requests == old(requests)
              case Some(t) => ok && View() == t && requests == old(requests)[rid := ctrl]
      ensures ok <==> ctrl.ec == 0 || forall i <- old(requests) ::
        old(requests)[i].ec == 0 || old(requests)[i].text != ctrl.text
    {
      if ctrl.ec != 0 {
        var repeated := HasNotify(ctrl.text);
        if repeated {
          return false;
        }
      }
      assert forall i <- requests :: requests[i] in requests.Values;
      requests := requests[rid := ctrl];
      hide Repeats;
      assert View() == old(View())[rid := Entry(ctrl.ec, ctrl.text)];
      return true;
    }

    /** The end of a failed `call_method`: mark down, entry removed. */
    method Abandon(rid: Id, ctrl: RpcController)
      requires Valid() && rid in requests && requests[rid] == ctrl
      modifies `requests, ctrl`ec, ctrl`text
      ensures Valid() && requests == old(requests) - {rid}
      ensures View() == old(View()) - {rid}
    {
      ctrl.ec := 0;
      ctrl.text := [];
      var _ := RemoveRequest(rid);
    }

    /** A notify is marked and named, and needs a callback; any other call starts unmarked. */
    method Prepare(service: CStr, notify: bool, ctrl: RpcController) returns (ok: bool)
      requires Valid() && ctrl !in requests.Values
      modifies ctrl`ec, ctrl`text
      ensures ok == !(notify && !ctrl.hasDone) && View() == old(View())
      ensures ok ==>
        Entry(ctrl.ec, ctrl.text) == if notify then Entry(ENOTIFY_MARK, service) else Entry(0, old(ctrl.text))
    {
      assert forall i <- requests :: requests[i] in requests.Values;
      if notify {
        if !ctrl.hasDone {
          return false;
        }
        ctrl.ec := ENOTIFY_MARK;
        ctrl.text := service;
      } else {
        ctrl.ec := 0;
      }
      return true;
    }

    /** Shows the code and tells the caller: by the callback, or by waking it. */
    method Complete(ctrl: RpcController, ec: int)
      requires ctrl.sync.owner == Free
      modifies ctrl`ec, ctrl`fired, ctrl`sync
      ensures ctrl.ec == ec && ctrl.fired == old(ctrl.fired) + [ec] && ctrl.sync.owner == Free
    {
      ctrl.ec := ec;
      if ctrl.hasDone {
        ctrl.Done();
      } else {
        ctrl.Notify();
      }
    }

    /** A completion by a response; the mark of a notify controller is down only meanwhile. */
    method CompleteByResponse(ctrl: RpcController, code: int, body: Bytes, decodes: bool)
      requires ctrl.sync.owner == Free
      modifies ctrl`ec, ctrl`fired, ctrl`sync
      ensures ctrl.fired
           == old(ctrl.fired) + [if body != [] && ctrl.hasResponse && !decodes then 1004 else code]
      ensures ctrl.sync.owner == Free
      ensures old(ctrl.ec) != 0 ==> ctrl.ec == ENOTIFY_MARK
    {
      var notify := ctrl.ec != 0;
      var ec := ENOERROR;
      if body != [] && ctrl.hasResponse && !decodes {
        ec := ERESPONSE;
      }
      Complete(ctrl, if ec == 0 then code else ec);
      if notify {
        ctrl.ec := ENOTIFY_MARK;
      }
    }

    /** `process_response`: one completion, of the controller the id stands for and of no other. */
    method ProcessResponse(rid: Id, code: int, body: Bytes, decodes: bool)
      requires Valid() && (rid in requests ==> requests[rid].sync.owner == Free)
      modifies `requests, requests.Values`ec, requests.Values`fired, requests.Values`sync
      ensures Valid() && View() == AfterResponse(old(View()), rid)
      ensures requests
           == if rid in old(requests) && old(requests[rid].ec) == 0 then old(requests) - {rid} else old(requests)
      ensures forall i <- old(requests) :: i != rid ==>
        old(requests)[i].fired == old(requests[i].fired) && old(requests)[i].sync == old(requests[i].sync)
      ensures rid in old(requests) ==> var c := old(requests)[rid];
        && c.fired == old(c.fired) + [if body != [] && c.hasResponse && !decodes then 1004 else code]
        && c.sync.owner == Free
    {
      var ctrl := RemoveRequest(rid);
      if ctrl != null {
        assert forall i <- old(requests) :: old(requests)[i] == ctrl ==> i == rid;
        CompleteByResponse(ctrl, code, body, decodes);
      }
    }

    /** `on_close`: every controller in the table is completed once with the network error. */
    method OnClose()
      requires Valid() && forall i <- requests :: requests[i].sync.owner == Free
      modifies `requests, requests.Values`ec, requests.Values`fired, requests.Values`sync
      ensures Valid() && requests == map[]
      ensures forall i <- old(requests) ::
        && old(requests)[i].ec == ENETWORK && old(requests)[i].fired == old(requests[i].fired) + [ENETWORK]
        && old(requests)[i].sync.owner == Free
    {
      var rest := requests.Keys;
      while rest != {}
        invariant rest <= requests.Keys && requests == old(requests)
        invariant forall i <- requests :: requests[i].sync.owner == Free
        invariant forall i <- requests.Keys - rest ::
          requests[i].ec == ENETWORK && requests[i].fired == old(requests[i].fired) + [ENETWORK]
        invariant forall i <- rest :: requests[i].fired == old(requests[i].fired)
        decreases |rest|
      {
        var i :| i in rest;
        assert forall j <- requests :: requests[j] == requests[i] ==> j == i;
        Complete(requests[i], ENETWORK);
        rest := rest - {i};
      }
      requests := map[];
    }

    /** What the loop does on this channel while the caller of `rid` sleeps. */
    method Meanwhile(rid: Id, ctrl: RpcController, waking: Waking)
      requires Valid() && rid in requests && requests[rid] == ctrl && ctrl.ec == 0 && ctrl.sync.owner == Free
      requires waking.Closed? ==> forall i <- requests :: requests[i].sync.owner == Free
      modifies `requests, requests.Values`ec, requests.Values`fired, requests.Values`sync
      ensures Valid() && View() == AfterWaking(old(View()), rid, waking)
      ensures ctrl.sync.owner == Free && ctrl.fired == old(ctrl.fired) + Shown(waking, ctrl.hasResponse)
      ensures !waking.Closed? ==> forall i <- old(requests) :: i != rid ==>
        old(requests)[i].fired == old(requests[i].fired) && old(requests)[i].sync == old(requests[i].sync)
      ensures requests
           == if waking.Closed? then map[] else if waking.Replied? then old(requests) - {rid} else old(requests)
    {
      match waking
      case Replied(code, body, decodes) =>
        assert !Marked(View(), rid);
        ProcessResponse(rid, code, body, decodes);
      case Closed => OnClose();
      case _ =>
    }

    /** `wait` of a synchronous call: the mutex given up, asleep, and awake with the mutex again. */
    method AwaitReply(rid: Id, ctrl: RpcController, waking: Waking) returns (ret: int)
      requires Valid() && rid in requests && requests[rid] == ctrl && ctrl.ec == 0
      requires ctrl.sync.owner == CallerHolds
      requires waking.Closed? ==> forall i <- requests :: i != rid ==> requests[i].sync.owner == Free
      modifies `requests, requests.Values`ec, requests.Values`fired, requests.Values`sync
      ensures Valid() && View() == AfterWaking(old(View()), rid, waking)
      ensures ret == if waking == TimedOut then -1 else 0
      ensures ctrl.sync == Sync(Free, false) && ctrl.fired == old(ctrl.fired) + Shown(waking, ctrl.hasResponse)
      ensures !waking.Closed? ==> forall i <- old(requests) :: i != rid ==>
        old(requests)[i].fired == old(requests[i].fired) && old(requests)[i].sync == old(requests[i].sync)
      ensures waking == TimedOut || waking == Spuriously ==> requests == old(requests)
    {
      hide AfterWaking, Shown;
      assert forall i <- requests :: requests[i] == ctrl ==> i == rid;
      ctrl.Wait();
      assert View() == old(View());
      Meanwhile(rid, ctrl, waking);
      ret := ctrl.WakeUp(waking == TimedOut);
    }

    /** The branch of `call_method` without a callback: lock, send, wait. */
    method SendAndWait(rid: Id, ctrl: RpcController, sent: int, waking: Waking) returns (ret: int)
      requires Valid() && rid in requests && requests[rid] == ctrl && ctrl.ec == 0 && ctrl.sync == Sync(Free, false)
      requires waking.Closed? ==> forall i <- requests :: i != rid ==> requests[i].sync.owner == Free
      modifies `requests, requests.Values`ec, requests.Values`fired, requests.Values`sync
      ensures Valid() && View() == if sent == 0 then AfterWaking(old(View()), rid, waking) else old(View())
      ensures ret == if sent != 0 then -4 else if waking == TimedOut then -5 else 0
      ensures ctrl.sync == Sync(Free, false)
      ensures ctrl.fired == old(ctrl.fired) + if sent == 0 then Shown(waking, ctrl.hasResponse) else []
      ensures sent != 0 || waking == TimedOut || waking == Spuriously ==> requests == old(requests)
      ensures sent != 0 || !waking.Closed? ==> forall i <- old(requests) :: i != rid ==>
        old(requests)[i].fired == old(requests[i].fired) && old(requests)[i].sync == old(requests[i].sync)
    {
      hide AfterWaking, Shown;
      assert forall i <- requests :: requests[i] == ctrl ==> i == rid;
      ctrl.Lock(CallerHolds);
      ret := sent;
      if ret != 0 {
        ctrl.Unlock();
        return -4;
      }
      assert View() == old(View());
      ret := AwaitReply(rid, ctrl, waking);
      if ret != 0 {
        ret := -5;
      }
    }

    /** `call_method`. `sent` is the answer of `send_packet`; what a synchronous call gets from it, or from the
        wait, never reaches its result. */
    method CallMethod(
      service: Option<CStr>, methodName: Option<CStr>, ctrl: RpcController?, sent: int, waking: Waking)
      returns (ret: int)
      requires Valid() && (ctrl != null ==> ctrl !in requests.Values && ctrl.sync == Sync(Free, false))
      requires waking.Closed? ==> forall i <- requests :: requests[i].sync.owner == Free
      modifies `id, `requests, (if ctrl == null then {} else {ctrl})`text
      modifies (requests.Values + if ctrl == null then {} else {ctrl})`ec
      modifies (requests.Values + if ctrl == null then {} else {ctrl})`fired
      modifies (requests.Values + if ctrl == null then {} else {ctrl})`sync
      ensures Valid()
      ensures service.None? || methodName.None? || ctrl == null ==> ret == -1 && id == old(id) && View() == old(View())
      ensures service.Some? && methodName.Some? && ctrl != null && !connected ==>
        ret == -2 && id == old(id) && View() == old(View())
      ensures service.Some? && methodName.Some? && ctrl != null && connected ==>
        var notify := methodName.value == NOTIFY;
        if notify && !ctrl.hasDone then ret == -3 && id == old(id) && View() == old(View()) else
          var e := if notify then Entry(ENOTIFY_MARK, service.value) else Entry(0, old(ctrl.text));
          var r := CallResult(old(View()), id, e, ctrl.hasDone, sent);
          var waits := r.0 == 0 && !ctrl.hasDone && sent == 0;
          && id == (old(id) + 1) % TWO_32
          && ret == r.0 && View() == (if waits then AfterWaking(r.1, id, waking) else r.1)
          && ctrl.fired == old(ctrl.fired) + if waits then Shown(waking, ctrl.hasResponse) else []
      ensures ctrl != null ==> ctrl.sync == Sync(Free, false)
      ensures service.Some? && methodName.Some? && ctrl != null && connected && methodName.value != NOTIFY ==>
        ret == if ctrl.hasDone && sent != 0 then -4 else 0
      ensures ctrl != null && ret == 0 && (ctrl.hasDone || sent != 0 || waking == TimedOut || waking == Spuriously) ==>
        id in requests && requests[id] == ctrl
      ensures !waking.Closed? ==> forall i <- old(requests) :: old(requests)[i].fired == old(requests[i].fired)
    {
      hide Repeats, View;
      if service.None? || methodName.None? || ctrl == null {
        return -1;
      }
      if !connected {
        return -2;
      }
      var ok := Prepare(service.value, methodName.value == NOTIFY, ctrl);
      if !ok {
        return -3;
      }
      id := (id + 1) % TWO_32;
      var inserted := InsertEntry(id, ctrl);
      if !inserted {
        return -3;
      }
      ret := 0;
      if ctrl.hasDone {
        if sent != 0 {
          ret := -4;
        }
      } else {
        var ret := SendAndWait(id, ctrl, sent, waking);  // the source declares a second `ret` here
      }
      if ret != 0 {
        Abandon(id, ctrl);
      }
    }
  }

  class ServerChannel {
    var connected: bool
    /** None once the channel has closed. */
    var services: Option<seq<Service>>
    var requests: map<Id, nat>
    /** The responses handed to `send_resp`: id, code and message. */
    ghost var responses: seq<(Id, int, Option<Bytes>)>

    constructor (services: seq<Service>)
      ensures connected && this.services == Some(services) && requests == map[] && responses == []
    {
      connected, this.services, requests, responses := true, Some(services), map[], [];
    }

    method SendResp(rid: Id, code: int, msg: Option<Bytes>)
      modifies `responses
      ensures responses == old(responses) + [(rid, code, msg)]
    {
      responses := responses + [(rid, code, msg)];
    }

    /** `find_svc`; `strncmp` over the length of the name is a prefix test. */
    method FindService(name: Bytes) returns (r: Option<nat>)
      requires services.Some?
      ensures r == FindSvc(services.value, name)
    {
      var i := 0;
      while i < |services.value|
        invariant i <= |services.value| && FindSvc(services.value, name) == FindSvcFrom(services.value, name, i)
      {
        if name <= services.value[i].name {
          return Some(i);
        }
        i := i + 1;
      }
      return None;
    }

    /** The scan of the table for an id under which `svc` is registered. */
    method FindId(svc: nat) returns (r: Option<Id>)
      ensures r.None? <==> svc !in requests.Values
      ensures r.Some? ==> r.value in requests && requests[r.value] == svc
    {
      var rest := requests.Keys;
      while rest != {}
        invariant rest <= requests.Keys && forall i <- requests.Keys - rest :: requests[i] != svc
        decreases |rest|
      {
        var i :| i in rest;
        if requests[i] == svc {
          return Some(i);
        }
        rest := rest - {i};
      }
      return None;
    }

    /** `process_request`: rejected with a response, registered without one, or handed to the service. */
    method ProcessRequest(rid: Id, service: Name, methodName: Name, body: Bytes, fate: Fate) returns (d: Decision)
      requires services.Some?
      modifies `requests, `responses
      ensures d == Decide(services.value, service, methodName, body, fate)
      ensures (forall k :: 0 <= k < |services.value| ==> !(service <= services.value[k].name)) ==> d == Reject(1001)
      ensures forall s | IsFirst(services.value, service, s) ::
        if methodName !in services.value[s].methods then d == Reject(1002)
        else if methodName == NOTIFY && body == [] then d == Register(s)
        else if body != [] && fate == Undecodable then d == Reject(1003)
        else if fate == NoMemory then d == Reject(1007)
        else d == Execute(s)
      ensures requests == if d.Register? then Registered(old(requests), rid, d.svc) else old(requests)
      ensures responses == old(responses) + if d.Reject? then [(rid, d.code, None)] else []
    {
      var found := FindService(service);
      FindSvcFromIsFirst(services.value, service, 0);
      assert forall s | IsFirst(services.value, service, s) :: found == Some(s);
      var ec := ENOERROR;
      if found.None? {
        ec := ENOSERVICE;
      } else if methodName !in services.value[found.value].methods {
        ec := ENOMETHOD;
      } else if methodName == NOTIFY && |body| == 0 {
        var known := FindId(found.value);
        if known.None? {
          requests := requests[rid := found.value];
        }
        return Register(found.value);
      } else if |body| > 0 && fate == Undecodable {
        ec := EREQUEST;
      } else if fate == NoMemory {
        ec := EINTERNAL;
      } else {
        return Execute(found.value);
      }
      SendResp(rid, ec, None);
      return Reject(ec);
    }

    /** The callback of a running method. */
    method Done(rid: Id, failed: bool, response: Option<Bytes>)
      modifies `responses
      ensures responses == old(responses) + [(rid, if failed then EMETHODCALL else ENOERROR, response)]
    {
      SendResp(rid, if failed then EMETHODCALL else ENOERROR, response);
    }

    /** `notify`: a message for the id registered for the service, if there is one. */
    method Notify(svc: Option<nat>, msg: Option<Bytes>) returns (ret: int)
      modifies `responses
      ensures ret == if svc.None? || msg.None? then -1
                     else if !connected || services.None? then -2
                     else if svc.value !in requests.Values then -3
                     else 0
      ensures ret != 0 ==> responses == old(responses)
      ensures ret == 0 ==> exists rid ::
        rid in requests && requests[rid] == svc.value && responses == old(responses) + [(rid, ENOERROR, msg)]
    {
      if svc.None? || msg.None? {
        return -1;
      }
      if !connected || services.None? {
        return -2;
      }
      var rid := FindId(svc.value);
      if rid.None? {
        return -3;
      }
      SendResp(rid.value, ENOERROR, msg);
      return 0;
    }

    method OnClose()
      modifies this
      ensures requests == map[] && services == None && responses == old(responses)
    {
      requests := map[];
      services := None;
    }
  }
}
