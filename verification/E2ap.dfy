/** The RIC Subscription, RIC Subscription Delete and RIC Control procedures of FlexRIC (sections
    8.2.1, 8.2.2 and 8.2.4 of O-RAN E2AP v01.01), as a system of two parties and two channels.

    `Ric` and `Agent` are the states the handlers update; the functions are what each handler does to
    its state. `Step` lists what can happen, and the lemmas are about every run of steps. A bimap is
    a map: left key a descriptor, right key a pending or indication event. Its two trees keep entries
    with equal keys apart, so a right key may occur more than once; descriptors are distinct. */
module E2ap {

  // ----- Identifiers and messages --------------------------------------------------------------

  /** ric_gen_id_t; the request number has 16 bits. */
  datatype RicId = RicId(req: int, inst: int, ran: int)

  datatype Kind = Subscription | Deletion | Control

  /** A request, its response, and the pending event that waits for it carry a kind and an id. */
  datatype Event = Event(kind: Kind, id: RicId)

  ghost predicate Distinct<K(!new), V>(m: map<K, V>) {
    forall k, l :: k in m && l in m && m[k] == m[l] ==> k == l
  }

  // ----- The near-RT RIC -----------------------------------------------------------------------

  datatype Ric = Ric(ep: int, reqId: nat, pending: map<int, Event>, watched: set<int>)

  /** Every armed timer has one pending entry, and only these and the socket are watched. */
  ghost predicate RicWatch(r: Ric) {
    r.ep > 0 && r.ep !in r.pending &&
    (forall fd :: fd in r.pending ==> fd > 0) &&
    r.watched == {r.ep} + r.pending.Keys
  }

  /** Moreover no two entries wait for the same event. */
  ghost predicate RicValid(r: Ric) { RicWatch(r) && Distinct(r.pending) }

  /** The request number: the counter cut to 16 bits. */
  function RequestNumber(r: Ric): int { r.reqId % 0x1_0000 }

  /** create_timer_ms_asio_ric and bi_map_insert. */
  function Arm(r: Ric, fd: int, ev: Event): Ric {
    r.(pending := r.pending[fd := ev], watched := r.watched + {fd})
  }

  /** fwd_ric_subscription_request and fwd_ric_control_request. */
  function RicRequest(r: Ric, kind: Kind, inst: int, ran: int, fd: int): (p: (Ric, Event)) {
    var ev := Event(kind, RicId(RequestNumber(r), inst, ran));
    (Arm(r.(reqId := r.reqId + 1), fd, ev), ev)
  }

  /** fwd_ric_subscription_request_delete: nothing happens when the same delete is pending. */
  function RicDelete(r: Ric, id: RicId, fd: int): Ric {
    if Event(Deletion, id) in r.pending.Values then r else Arm(r, fd, Event(Deletion, id))
  }

  /** stop_pending_event: the descriptors that wait for the event leave the bimap and the epoll set. */
  function Stop(r: Ric, ev: Event): Ric {
    r.(pending := map fd | fd in r.pending && r.pending[fd] != ev :: r.pending[fd],
       watched := r.watched - (set fd | fd in r.pending && r.pending[fd] == ev))
  }

  // ----- The E2 agent --------------------------------------------------------------------------

  /** ind_event_t; the bimap compares the id alone. */
  datatype IndEvent = IndEvent(id: RicId, periodic: bool)

  /** `pending` holds the descriptors of setup timers. */
  datatype Agent = Agent(sock: int, pipe: int, ind: map<int, IndEvent>, pending: set<int>, watched: set<int>)

  /** A periodic event is stored under its timer, an aperiodic one under minus its request number; no
      two events have the same id. */
  ghost predicate KeysValid(ind: map<int, IndEvent>) {
    (forall k :: k in ind ==> if ind[k].periodic then k > 0 else k == -ind[k].id.req <= 0) &&
    (forall k, l :: k in ind && l in ind && ind[k].id == ind[l].id ==> k == l)
  }

  /** The watched descriptors are the socket, the pipe, the indication timers and the setup timers, all
      different. */
  ghost predicate WatchValid(a: Agent) {
    a.sock > 0 && a.pipe > 0 && a.sock != a.pipe &&
    (forall fd :: fd in a.watched <==> fd == a.sock || fd == a.pipe || (fd in a.ind && fd > 0) || fd in a.pending) &&
    a.sock !in a.ind && a.pipe !in a.ind && a.sock !in a.pending && a.pipe !in a.pending &&
    (forall fd :: fd in a.pending ==> fd > 0 && fd !in a.ind)
  }

  ghost predicate AgentValid(a: Agent) { KeysValid(a.ind) && WatchValid(a) }

  /** The ids the agent sends indications for. */
  function SubIds(a: Agent): set<RicId> { IdsOf(a.ind) }

  function IdsOf(ind: map<int, IndEvent>): set<RicId> { set k | k in ind :: ind[k].id }

  /** e2ap_handle_subscription_request_agent: `periodic` is what the service model answers. */
  function AgentSubscribe(a: Agent, id: RicId, periodic: bool, fd: int): Agent {
    if periodic then a.(ind := a.ind[fd := IndEvent(id, true)], watched := a.watched + {fd})
    else a.(ind := a.ind[-id.req := IndEvent(id, false)])
  }

  /** The left keys stop_ind_event extracts for an id. */
  function KeysOf(a: Agent, id: RicId): set<int> { set k | k in a.ind && a.ind[k].id == id }

  /** The descriptors it then removes from the epoll set: the keys above -1. */
  function Removed(a: Agent, id: RicId): set<int> { set k | k in KeysOf(a, id) && k > -1 }

  /** stop_ind_event; nothing happens for an id that is not found. */
  function AgentDelete(a: Agent, id: RicId): Agent {
    a.(ind := map k | k in a.ind && a.ind[k].id != id :: a.ind[k], watched := a.watched - Removed(a, id))
  }

  /** e2_start_agent and notification_handle_ag: a setup timer is armed. */
  function AgentArmSetup(a: Agent, fd: int): Agent {
    a.(pending := a.pending + {fd}, watched := a.watched + {fd})
  }

  /** e2ap_handle_setup_response_agent: `fd` is the setup timer that the bimap finds. */
  function AgentSetupDone(a: Agent, fd: int): Agent {
    a.(pending := a.pending - {fd}, watched := a.watched - {fd})
  }

  // ----- What each handler keeps ---------------------------------------------------------------

  lemma KeyFor<K, V>(m: map<K, V>, v: V) returns (k: K)
    requires v in m.Values
    ensures k in m && m[k] == v
  {
    k :| k in m && m[k] == v;
  }

  /** Arming keeps the watched set exact; entries stay distinct exactly when the event was not pending. */
  lemma ArmKeeps(r: Ric, fd: int, ev: Event)
    requires RicWatch(r) && fd > 0 && fd !in r.watched
    ensures RicWatch(Arm(r, fd, ev)) && Arm(r, fd, ev).pending.Values == r.pending.Values + {ev}
    ensures RicValid(Arm(r, fd, ev)) <==> RicValid(r) && ev !in r.pending.Values
  {
    var p := Arm(r, fd, ev).pending;
    assert forall k :: k in p ==> p[k] == if k == fd then ev else r.pending[k];
    assert p[fd] == ev;
    forall e | e in r.pending.Values ensures e in p.Values {
      var k := KeyFor(r.pending, e);
      assert p[k] == e;
    }
    ArmDistinct(r.pending, fd, ev);
  }

  lemma ArmDistinct(m: map<int, Event>, fd: int, ev: Event)
    requires fd !in m
    ensures Distinct(m[fd := ev]) <==> Distinct(m) && ev !in m.Values
  {
    var p := m[fd := ev];
    assert p[fd] == ev && forall k :: k in m ==> k != fd && k in p && p[k] == m[k];
    if Distinct(m) && ev !in m.Values {
      forall k, l | k in p && l in p && p[k] == p[l] ensures k == l {
        assert k != fd ==> m[k] in m.Values;
        assert l != fd ==> m[l] in m.Values;
      }
    }
    if ev in m.Values {
      var k := KeyFor(m, ev);
      assert k != fd && p[k] == p[fd];
    }
  }

  /** stop_pending_event finds one timer, watched, and leaves every other entry as it was. */
  lemma StopFindsTimer(r: Ric, ev: Event)
    requires RicValid(r) && ev in r.pending.Values
    ensures exists fd :: fd in r.pending && r.pending[fd] == ev && fd > 0 && fd in r.watched &&
                         Stop(r, ev).pending == r.pending - {fd} && Stop(r, ev).watched == r.watched - {fd}
    ensures RicValid(Stop(r, ev)) && Stop(r, ev).pending.Values == r.pending.Values - {ev}
  {
    var fd := KeyFor(r.pending, ev);
    var s := Stop(r, ev);
    assert s.pending == r.pending - {fd};
    assert s.watched == r.watched - {fd};
    forall e | e in r.pending.Values - {ev} ensures e in s.pending.Values {
      var k := KeyFor(r.pending, e);
      assert k in s.pending && s.pending[k] == e;
    }
  }

  lemma SubscribeKeeps(a: Agent, id: RicId, periodic: bool, fd: int)
    requires AgentValid(a) && id !in SubIds(a)
    requires if periodic then fd > 0 && fd !in a.watched else id.req >= 0 && -id.req !in a.ind
    ensures AgentValid(AgentSubscribe(a, id, periodic, fd))
    ensures SubIds(AgentSubscribe(a, id, periodic, fd)) == SubIds(a) + {id}
  {
    var e := IndEvent(id, periodic);
    var key := if periodic then fd else -id.req;
    assert key !in a.ind;
    SubIdsGrow(a.ind, key, e);
    KeysGrow(a.ind, key, e);
    hide IdsOf, KeysValid;
    assert AgentSubscribe(a, id, periodic, fd).ind == a.ind[key := e];
  }

  lemma KeysGrow(ind: map<int, IndEvent>, key: int, e: IndEvent)
    requires KeysValid(ind) && key !in ind && e.id !in IdsOf(ind)
    requires if e.periodic then key > 0 else e.id.req >= 0 && key == -e.id.req
    ensures KeysValid(ind[key := e])
  {
    var b := ind[key := e];
    assert forall k :: k in b ==> b[k] == if k == key then e else ind[k];
    assert forall k :: k in ind ==> ind[k].id in IdsOf(ind);
  }

  lemma SubIdsGrow(ind: map<int, IndEvent>, key: int, e: IndEvent)
    requires key !in ind
    ensures IdsOf(ind[key := e]) == IdsOf(ind) + {e.id}
  {
    var b := ind[key := e];
    assert b[key] == e;
    forall i | i in IdsOf(ind) ensures i in IdsOf(b) {
      var k :| k in ind && ind[k].id == i;
      assert b[k].id == i;
    }
  }

  lemma DeleteKeeps(a: Agent, id: RicId)
    requires AgentValid(a)
    ensures AgentValid(AgentDelete(a, id)) && (Removed(a, id) <= a.watched <==> 0 !in KeysOf(a, id))
    ensures SubIds(AgentDelete(a, id)) == SubIds(a) - {id}
  {
    var b := AgentDelete(a, id);
    assert forall k :: k in b.ind ==> k in a.ind && b.ind[k] == a.ind[k];
    forall i | i in SubIds(a) - {id} ensures i in SubIds(b) {
      var k :| k in a.ind && a.ind[k].id == i;
      assert k in b.ind && b.ind[k].id == i;
    }
  }

  /** Request number zero: an aperiodic subscription is stored under descriptor 0, which was never
      watched, and its deletion removes that descriptor. This is the only such number. */
  lemma AperiodicRemovalIff(a: Agent, id: RicId)
    requires AgentValid(a) && id.req >= 0 && id !in SubIds(a) && -id.req !in a.ind
    ensures Removed(AgentSubscribe(a, id, false, 0), id) <= a.watched <==> id.req != 0
  {
    var b := AgentSubscribe(a, id, false, 0);
    assert b.ind[-id.req].id == id;
    assert forall k :: k in b.ind ==> b.ind[k] == if k == -id.req then IndEvent(id, false) else a.ind[k];
    assert forall k :: k in a.ind ==> a.ind[k].id in SubIds(a);
    assert KeysOf(b, id) == {-id.req};
    assert 0 !in a.watched;
    if id.req == 0 {
      assert 0 in Removed(b, id);
    }
  }

  /** A RIC whose counter stands at 65536 gives number 0: for every agent, deleting the aperiodic
      subscription with it takes descriptor 0 out of a set that does not hold it. */
  lemma NumberZeroRemovesUnwatched(a: Agent, inst: int, ran: int, fd: int)
    requires AgentValid(a) && RicId(0, inst, ran) !in SubIds(a) && 0 !in a.ind
    ensures var (ric, ev) := RicRequest(Ric(3, 0x1_0000, map[], {3}), Subscription, inst, ran, fd);
            ev.id.req == 0 && 0 in Removed(AgentSubscribe(a, ev.id, false, 0), ev.id) && 0 !in a.watched
  {
    var id := RicId(0, inst, ran);
    AperiodicRemovalIff(a, id);
    var b := AgentSubscribe(a, id, false, 0);
    assert b.ind[0] == IndEvent(id, false);
    assert 0 in KeysOf(b, id);
  }

  /** The watched descriptors as a union of disjoint sets. */
  lemma WatchedIs(a: Agent)
    requires AgentValid(a)
    ensures a.watched == {a.sock, a.pipe} + Timers(a.ind) + a.pending
    ensures {a.sock, a.pipe} !! Timers(a.ind) && {a.sock, a.pipe} !! a.pending && Timers(a.ind) !! a.pending
  {
    hide KeysValid;
    WatchedUnion(a);
    assert forall fd :: fd in Timers(a.ind) ==> fd in a.ind;
  }

  /** The timers of the periodic events. */
  function Timers(ind: map<int, IndEvent>): set<int> { set k | k in ind && k > 0 }

  lemma WatchedUnion(a: Agent)
    requires WatchValid(a)
    ensures a.watched == {a.sock, a.pipe} + Timers(a.ind) + a.pending
  {
    assert forall fd :: fd in Timers(a.ind) <==> fd in a.ind && fd > 0;
    hide Timers;
    assert forall fd :: fd in a.watched <==> fd in {a.sock, a.pipe} + Timers(a.ind) + a.pending;
  }

  lemma SetupKeeps(a: Agent, fd: int)
    requires AgentValid(a)
    ensures fd in a.pending ==> AgentValid(AgentSetupDone(a, fd)) && |AgentSetupDone(a, fd).pending| == |a.pending| - 1
    ensures fd > 0 && fd !in a.watched ==>
              AgentValid(AgentArmSetup(a, fd)) && |AgentArmSetup(a, fd).pending| == |a.pending| + 1
  {
  }

  // ----- The system ----------------------------------------------------------------------------

  /** `toAgent` is in order; the RIC handles what comes back by parallel tasks, so in any order.
      `active` is the history: the ids subscribed and not deleted since, in the order of issue. */
  datatype System = System(ric: Ric, agent: Agent, toAgent: seq<Event>, toRic: multiset<Event>, active: set<RicId>)

  datatype Step =
    | Subscribe(inst: int, ran: int, fd: int)
    | Delete(id: RicId, fd: int)
    | ControlRequest(inst: int, ran: int, fd: int)
    | AgentHandles(periodic: bool, fd: int)
    | RicHandles(ev: Event)
    | SetupResponse(fd: int)
    | LinkLoss(fd: int)

  /** The new 16-bit number is positive and no live request, response or subscription carries it. */
  ghost predicate Fresh(s: System) {
    var n := RequestNumber(s.ric);
    n > 0 &&
    (forall ev :: ev in s.ric.pending.Values ==> ev.id.req != n) &&
    (forall id :: id in SubIds(s.agent) ==> id.req != n)
  }

  ghost predicate FreshTimer(watched: set<int>, fd: int) { fd > 0 && fd !in watched }

  ghost predicate Enabled(s: System, step: Step) {
    match step
    case Subscribe(_, _, fd) => FreshTimer(s.ric.watched, fd) && Fresh(s)
    case ControlRequest(_, _, fd) => FreshTimer(s.ric.watched, fd) && Fresh(s)
    case Delete(id, fd) => Event(Deletion, id) !in s.ric.pending.Values ==> FreshTimer(s.ric.watched, fd)
    case AgentHandles(periodic, fd) => s.toAgent != [] && (periodic ==> FreshTimer(s.agent.watched, fd))
    case RicHandles(ev) => ev in s.toRic
    case SetupResponse(fd) => fd in s.agent.pending
    case LinkLoss(fd) => FreshTimer(s.agent.watched, fd)
  }

  function Handle(a: Agent, ev: Event, periodic: bool, fd: int): Agent {
    match ev.kind
    case Subscription => AgentSubscribe(a, ev.id, periodic, fd)
    case Deletion => AgentDelete(a, ev.id)
    case Control => a
  }

  /** The set of active ids after a request. */
  function Apply(ids: set<RicId>, ev: Event): set<RicId> {
    match ev.kind
    case Subscription => ids + {ev.id}
    case Deletion => ids - {ev.id}
    case Control => ids
  }

  /** The effect of a step. Every request gets a response: the agent answers even a delete of an id it
      does not hold. */
  ghost function Do(s: System, step: Step): System
    requires Enabled(s, step)
  {
    match step
    case Subscribe(inst, ran, fd) =>
      var (ric, ev) := RicRequest(s.ric, Subscription, inst, ran, fd);
      s.(ric := ric, toAgent := s.toAgent + [ev], active := Apply(s.active, ev))
    case ControlRequest(inst, ran, fd) =>
      var (ric, ev) := RicRequest(s.ric, Control, inst, ran, fd);
      s.(ric := ric, toAgent := s.toAgent + [ev])
    case Delete(id, fd) =>
      var ev := Event(Deletion, id);
      if ev in s.ric.pending.Values then s
      else s.(ric := RicDelete(s.ric, id, fd), toAgent := s.toAgent + [ev], active := Apply(s.active, ev))
    case AgentHandles(periodic, fd) =>
      var ev := s.toAgent[0];
      s.(agent := Handle(s.agent, ev, periodic, fd), toAgent := s.toAgent[1..], toRic := s.toRic + multiset{ev})
    case RicHandles(ev) =>
      s.(ric := Stop(s.ric, ev), toRic := s.toRic - multiset{ev})
    case SetupResponse(fd) =>
      s.(agent := AgentSetupDone(s.agent, fd))
    case LinkLoss(fd) =>
      s.(agent := AgentArmSetup(s.agent, fd))
  }

  /** What the agent's set of ids becomes once it has handled the requests in the queue. */
  function Replay(ids: set<RicId>, queue: seq<Event>): set<RicId>
    decreases |queue|
  {
    if queue == [] then ids else Replay(Apply(ids, queue[0]), queue[1..])
  }

  /** A subscription in the queue carries a number of its own: nothing before it, nothing answered and
      nothing the agent holds has that number. */
  ghost predicate OwnNumbers(s: System) {
    (forall j :: 0 <= j < |s.toAgent| && s.toAgent[j].kind.Subscription? ==>
      s.toAgent[j].id.req > 0 &&
      (forall i :: 0 <= i < j ==> s.toAgent[i].id.req != s.toAgent[j].id.req) &&
      (forall ev :: ev in s.toRic ==> ev.id.req != s.toAgent[j].id.req) &&
      (forall id :: id in SubIds(s.agent) ==> id.req != s.toAgent[j].id.req))
  }

  ghost predicate Inv(s: System) {
    RicValid(s.ric) && AgentValid(s.agent) &&
    multiset(s.toAgent) + s.toRic == multiset(s.ric.pending.Values) &&
    Replay(SubIds(s.agent), s.toAgent) == s.active &&
    OwnNumbers(s) &&
    (forall ev :: ev in s.toRic && ev.kind.Deletion? ==> ev.id !in SubIds(s.agent))
  }

  // ----- The invariant -------------------------------------------------------------------------

  lemma InFlightIsPending(s: System, ev: Event)
    requires multiset(s.toAgent) + s.toRic == multiset(s.ric.pending.Values)
    ensures ev in s.toRic ==> ev in s.ric.pending.Values
    ensures ev in s.toAgent ==> ev in s.ric.pending.Values
    ensures ev in s.ric.pending.Values ==> ev in s.toAgent || ev in s.toRic
    ensures s.toRic[ev] <= 1
  {
    var all := multiset(s.toAgent) + s.toRic;
    assert all[ev] == multiset(s.toAgent)[ev] + s.toRic[ev];
    assert ev in s.toAgent <==> multiset(s.toAgent)[ev] > 0;
    assert multiset(s.ric.pending.Values)[ev] <= 1;
  }

  lemma {:induction false} ReplayAppend(ids: set<RicId>, queue: seq<Event>, ev: Event)
    ensures Replay(ids, queue + [ev]) == Apply(Replay(ids, queue), ev)
    decreases |queue|
  {
    hide Apply;
    if queue == [] {
      assert [ev][1..] == [];
    } else {
      assert (queue + [ev])[1..] == queue[1..] + [ev];
      ReplayAppend(Apply(ids, queue[0]), queue[1..], ev);
    }
  }

  lemma SumOfValues(a: multiset<Event>, b: multiset<Event>, v: set<Event>, ev: Event)
    requires a + b == multiset(v) && ev !in v
    ensures a + multiset{ev} + b == multiset(v + {ev})
  {
    var l, r := a + multiset{ev} + b, multiset(v + {ev});
    forall e ensures l[e] == r[e] {
      assert (a + b)[e] == multiset(v)[e];
    }
  }

  lemma LessOfValues(a: multiset<Event>, b: multiset<Event>, v: set<Event>, ev: Event)
    requires a + b == multiset(v) && ev in b
    ensures a + (b - multiset{ev}) == multiset(v - {ev})
  {
    var l, r := a + (b - multiset{ev}), multiset(v - {ev});
    forall e ensures l[e] == r[e] {
      assert (a + b)[e] == multiset(v)[e];
    }
  }

  /** Issuing a request keeps the first part of the invariant. */
  lemma IssueKeepsFlight(s: System, r: Ric, fd: int, ev: Event)
    requires Inv(s) && RicValid(r) && r.pending == s.ric.pending && r.watched == s.ric.watched
    requires FreshTimer(r.watched, fd) && ev !in r.pending.Values
    ensures RicValid(Arm(r, fd, ev))
    ensures multiset(s.toAgent + [ev]) + s.toRic == multiset(Arm(r, fd, ev).pending.Values)
  {
    ArmKeeps(r, fd, ev);
    assert multiset(s.toAgent + [ev]) == multiset(s.toAgent) + multiset{ev};
    SumOfValues(multiset(s.toAgent), s.toRic, r.pending.Values, ev);
  }

  lemma FreshNumber(s: System, ev: Event)
    requires Inv(s) && Fresh(s) && ev.id.req == RequestNumber(s.ric)
    ensures ev !in s.ric.pending.Values
    ensures forall e :: e in s.toAgent ==> e.id.req != ev.id.req
    ensures forall e :: e in s.toRic ==> e.id.req != ev.id.req
  {
    forall e | e in s.toAgent || e in s.toRic ensures e in s.ric.pending.Values {
      InFlightIsPending(s, e);
    }
  }

  lemma SubscribeStep(s: System, step: Step)
    requires Inv(s) && Enabled(s, step) && step.Subscribe?
    ensures Inv(Do(s, step))
  {
    var r := s.ric.(reqId := s.ric.reqId + 1);
    var ev := Event(Subscription, RicId(RequestNumber(s.ric), step.inst, step.ran));
    FreshNumber(s, ev);
    IssueKeepsFlight(s, r, step.fd, ev);
    ReplayAppend(SubIds(s.agent), s.toAgent, ev);
    var t := Do(s, step);
    hide RicValid, AgentValid, Replay, SubIds;
    assert t.toAgent == s.toAgent + [ev] && t.agent == s.agent && t.toRic == s.toRic;
    OwnNumbersAppend(s, t, ev);
  }

  lemma OwnNumbersAppend(s: System, t: System, ev: Event)
    requires OwnNumbers(s) && t.toAgent == s.toAgent + [ev] && t.agent == s.agent && t.toRic == s.toRic
    requires ev.kind.Subscription? ==>
               ev.id.req > 0 &&
               (forall e :: e in s.toAgent ==> e.id.req != ev.id.req) &&
               (forall e :: e in s.toRic ==> e.id.req != ev.id.req) &&
               (forall id :: id in SubIds(s.agent) ==> id.req != ev.id.req)
    ensures OwnNumbers(t)
  {
    hide SubIds;
  }

  lemma ControlStep(s: System, step: Step)
    requires Inv(s) && Enabled(s, step) && step.ControlRequest?
    ensures Inv(Do(s, step))
  {
    var r := s.ric.(reqId := s.ric.reqId + 1);
    var ev := Event(Control, RicId(RequestNumber(s.ric), step.inst, step.ran));
    FreshNumber(s, ev);
    IssueKeepsFlight(s, r, step.fd, ev);
    ReplayAppend(SubIds(s.agent), s.toAgent, ev);
    var t := Do(s, step);
    hide RicValid, AgentValid, Replay, SubIds;
    assert t.toAgent == s.toAgent + [ev] && t.agent == s.agent && t.toRic == s.toRic;
    OwnNumbersAppend(s, t, ev);
  }

  lemma DeleteStep(s: System, step: Step)
    requires Inv(s) && Enabled(s, step) && step.Delete?
    ensures Inv(Do(s, step))
  {
    var ev := Event(Deletion, step.id);
    if ev !in s.ric.pending.Values {
      IssueKeepsFlight(s, s.ric, step.fd, ev);
      ReplayAppend(SubIds(s.agent), s.toAgent, ev);
      var t := Do(s, step);
      hide RicValid, AgentValid, Replay, SubIds;
      assert t.toAgent == s.toAgent + [ev] && t.agent == s.agent && t.toRic == s.toRic;
      OwnNumbersAppend(s, t, ev);
    }
  }

  /** Handling the request at the head of the queue. */
  lemma HandleKeeps(s: System, periodic: bool, fd: int)
    requires Inv(s) && s.toAgent != [] && (periodic ==> FreshTimer(s.agent.watched, fd))
    ensures var ev := s.toAgent[0]; var b := Handle(s.agent, ev, periodic, fd);
            AgentValid(b) && SubIds(b) == Apply(SubIds(s.agent), ev)
  {
    var ev := s.toAgent[0];
    match ev.kind
    case Subscription =>
      assert forall k :: k in s.agent.ind ==> s.agent.ind[k].id in SubIds(s.agent);
      SubscribeKeeps(s.agent, ev.id, periodic, fd);
    case Deletion => DeleteKeeps(s.agent, ev.id);
    case Control =>
  }

  lemma AgentStep(s: System, step: Step)
    requires Inv(s) && Enabled(s, step) && step.AgentHandles?
    ensures Inv(Do(s, step))
  {
    var ev := s.toAgent[0];
    var t := Do(s, step);
    HandleKeeps(s, step.periodic, step.fd);
    assert Replay(SubIds(t.agent), t.toAgent) == Replay(SubIds(s.agent), s.toAgent);
    assert multiset(t.toAgent) + t.toRic == multiset(s.toAgent) + s.toRic by {
      assert s.toAgent == [ev] + t.toAgent;
    }
    hide RicValid, AgentValid, Replay, SubIds, Handle;
    assert t.ric == s.ric;
    HeadMoves(s, t, ev);
  }

  lemma HeadMoves(s: System, t: System, ev: Event)
    requires OwnNumbers(s) && s.toAgent != [] && ev == s.toAgent[0]
    requires t.toAgent == s.toAgent[1..] && t.toRic == s.toRic + multiset{ev}
    requires SubIds(t.agent) == Apply(SubIds(s.agent), ev)
    requires forall e :: e in s.toRic && e.kind.Deletion? ==> e.id !in SubIds(s.agent)
    ensures OwnNumbers(t)
    ensures forall e :: e in t.toRic && e.kind.Deletion? ==> e.id !in SubIds(t.agent)
  {
    hide SubIds;
    assert forall j :: 0 <= j < |t.toAgent| ==> t.toAgent[j] == s.toAgent[j + 1];
  }

  lemma RicStep(s: System, step: Step)
    requires Inv(s) && Enabled(s, step) && step.RicHandles?
    ensures Inv(Do(s, step))
  {
    var ev := step.ev;
    InFlightIsPending(s, ev);
    StopFindsTimer(s.ric, ev);
    var t := Do(s, step);
    hide RicValid, AgentValid, Replay, SubIds, Stop;
    LessOfValues(multiset(s.toAgent), s.toRic, s.ric.pending.Values, ev);
    assert forall e :: e in t.toRic ==> e in s.toRic;
  }

  lemma SetupStep(s: System, step: Step)
    requires Inv(s) && Enabled(s, step) && step.SetupResponse?
    ensures Inv(Do(s, step))
  {
    SetupKeeps(s.agent, step.fd);
    assert SubIds(AgentSetupDone(s.agent, step.fd)) == SubIds(s.agent);
  }

  lemma LinkStep(s: System, step: Step)
    requires Inv(s) && Enabled(s, step) && step.LinkLoss?
    ensures Inv(Do(s, step))
  {
    SetupKeeps(s.agent, step.fd);
    assert SubIds(AgentArmSetup(s.agent, step.fd)) == SubIds(s.agent);
  }

  lemma StepKeepsInv(s: System, step: Step)
    requires Inv(s) && Enabled(s, step)
    ensures Inv(Do(s, step))
  {
    hide Inv, Enabled, Do;
    match step
    case Subscribe(_, _, _) => SubscribeStep(s, step);
    case ControlRequest(_, _, _) => ControlStep(s, step);
    case Delete(_, _) => DeleteStep(s, step);
    case AgentHandles(_, _) => AgentStep(s, step);
    case RicHandles(_) => RicStep(s, step);
    case SetupResponse(_) => SetupStep(s, step);
    case LinkLoss(_) => LinkStep(s, step);
  }

  // ----- Runs ----------------------------------------------------------------------------------

  ghost predicate Init(s: System) {
    s.ric.ep > 0 && s.ric.reqId == 1021 && s.ric.pending == map[] && s.ric.watched == {s.ric.ep} &&
    s.agent.ind == map[] && |s.agent.pending| == 1 && AgentValid(s.agent) &&
    s.toAgent == [] && s.toRic == multiset{} && s.active == {}
  }

  /** A run: its states and the steps between them. */
  ghost predicate IsRun(states: seq<System>, steps: seq<Step>) {
    |states| == |steps| + 1 && Init(states[0]) &&
    forall i :: 0 <= i < |steps| ==> Enabled(states[i], steps[i]) && states[i + 1] == Do(states[i], steps[i])
  }

  lemma {:induction false} RunKeepsInv(states: seq<System>, steps: seq<Step>, i: nat)
    requires IsRun(states, steps) && i < |states|
    ensures Inv(states[i])
    decreases i
  {
    if i == 0 {
      var s := states[0];
      assert s.ric.pending.Values == {};
      assert SubIds(s.agent) == {};
    } else {
      RunKeepsInv(states, steps, i - 1);
      StepKeepsInv(states[i - 1], steps[i - 1]);
    }
  }

  /** In every run, each message in flight is one pending entry and the other way round; a response
      that arrives finds its timer, and every armed timer has exactly one entry. */
  lemma ResponseFindsTimer(states: seq<System>, steps: seq<Step>, i: nat)
    requires IsRun(states, steps) && i < |steps|
    ensures var s := states[i];
            multiset(s.toAgent) + s.toRic == multiset(s.ric.pending.Values) && Distinct(s.ric.pending) &&
            s.ric.watched == {s.ric.ep} + s.ric.pending.Keys && s.ric.ep !in s.ric.pending
    ensures steps[i].RicHandles? ==>
              var r, ev := states[i].ric, steps[i].ev;
              exists fd :: fd in r.pending && r.pending[fd] == ev && fd > 0 && fd in r.watched &&
                           states[i + 1].ric.pending == r.pending - {fd} &&
                           states[i + 1].ric.watched == r.watched - {fd}
  {
    RunKeepsInv(states, steps, i);
    var s := states[i];
    if steps[i].RicHandles? {
      var ev := steps[i].ev;
      InFlightIsPending(s, ev);
      StopFindsTimer(s.ric, ev);
      assert states[i + 1] == Do(s, steps[i]);
    }
  }

  /** With nothing in flight nothing is pending, no timer is armed, and the agent holds exactly the ids
      subscribed and not deleted. */
  lemma Quiescent(states: seq<System>, steps: seq<Step>, i: nat)
    requires IsRun(states, steps) && i < |states|
    requires states[i].toAgent == [] && states[i].toRic == multiset{}
    ensures states[i].ric.pending == map[] && states[i].ric.watched == {states[i].ric.ep}
    ensures SubIds(states[i].agent) == states[i].active
  {
    RunKeepsInv(states, steps, i);
    var s := states[i];
    forall fd | fd in s.ric.pending ensures false {
      assert s.ric.pending[fd] in s.ric.pending.Values;
      InFlightIsPending(s, s.ric.pending[fd]);
    }
    assert s.ric.pending.Keys == {};
  }

  /** What a watched descriptor of the agent stands for: exactly one of four kinds. */
  ghost predicate OneKind(a: Agent, fd: int) {
    var network, pipe := fd == a.sock, fd == a.pipe;
    var periodic, setup := fd in a.ind && a.ind[fd].periodic, fd in a.pending;
    (network && !pipe && !periodic && !setup) || (!network && pipe && !periodic && !setup) ||
    (!network && !pipe && periodic && !setup) || (!network && !pipe && !periodic && setup)
  }

  /** In every run, with any number of lost links: the agent watches exactly the socket, the pipe, the timers
      of its periodic subscriptions and its setup timers; each descriptor that epoll can return is one of
      these kinds and not another; and no two indication events share a key or an id. */
  lemma WatchedAlongRun(states: seq<System>, steps: seq<Step>, i: nat)
    requires IsRun(states, steps) && i < |states|
    ensures var a := states[i].agent;
            a.watched == {a.sock, a.pipe} + Timers(a.ind) + a.pending && KeysValid(a.ind) &&
            forall fd :: fd in a.watched ==> OneKind(a, fd)
  {
    RunKeepsInv(states, steps, i);
    WatchedIs(states[i].agent);
  }

  function Losses(steps: seq<Step>): nat
    decreases |steps|
  {
    if steps == [] then 0
    else Losses(steps[..|steps| - 1]) + if steps[|steps| - 1].LinkLoss? then 1 else 0
  }

  function Responses(steps: seq<Step>): nat
    decreases |steps|
  {
    if steps == [] then 0
    else Responses(steps[..|steps| - 1]) + if steps[|steps| - 1].SetupResponse? then 1 else 0
  }

  lemma SetupsAfter(s: System, step: Step)
    requires Inv(s) && Enabled(s, step)
    ensures |Do(s, step).agent.pending| ==
            |s.agent.pending| + (if step.LinkLoss? then 1 else 0) - (if step.SetupResponse? then 1 else 0)
  {
    if step.LinkLoss? || step.SetupResponse? {
      SetupKeeps(s.agent, step.fd);
    }
  }

  /** The setup timers that wait: the one of the start, one more for each lost link, one less for each setup
      response. */
  lemma {:induction false} SetupsAlongRun(states: seq<System>, steps: seq<Step>, i: nat)
    requires IsRun(states, steps) && i < |states|
    ensures |states[i].agent.pending| == 1 + Losses(steps[..i]) - Responses(steps[..i])
    decreases i
  {
    if i > 0 {
      SetupsAlongRun(states, steps, i - 1);
      RunKeepsInv(states, steps, i - 1);
      SetupsAfter(states[i - 1], steps[i - 1]);
      assert steps[..i][..i - 1] == steps[..i - 1];
      hide Inv, Enabled, Do;
    }
  }

  /** The assertion of pend_event, that one setup request is pending, holds for every setup timer that epoll
      can return exactly when no link was lost while one was: each loss so far had its response. */
  lemma OneSetupIff(states: seq<System>, steps: seq<Step>, i: nat)
    requires IsRun(states, steps) && i < |states|
    ensures (forall fd :: fd in states[i].agent.pending ==> |states[i].agent.pending| == 1) <==>
            Losses(steps[..i]) <= Responses(steps[..i])
  {
    SetupsAlongRun(states, steps, i);
    SingleOrNone(states[i].agent.pending);
  }

  /** A link lost before the first setup response leaves two setup timers, where the assertion asks for one. */
  lemma EarlyLossFailsAssertion(s: System, fd: int)
    requires Init(s) && FreshTimer(s.agent.watched, fd)
    ensures Enabled(s, LinkLoss(fd)) && Do(s, LinkLoss(fd)).agent.pending == s.agent.pending + {fd}
    ensures |Do(s, LinkLoss(fd)).agent.pending| == 2
  {
    SetupKeeps(s.agent, fd);
  }

  lemma SingleOrNone(p: set<int>)
    ensures p != {} <==> exists fd :: fd in p
    ensures (forall fd :: fd in p ==> |p| == 1) <==> |p| <= 1
  {
    if forall fd :: fd !in p {
      assert p == {};
    }
  }

  /** The agent does not hold the id, and no subscription to it is on the way. */
  ghost predicate Gone(s: System, id: RicId) {
    id !in SubIds(s.agent) && Event(Subscription, id) !in s.toAgent
  }

  /** The step subscribes to the id anew: the counter has come round to its number. */
  ghost predicate Reissues(s: System, step: Step, id: RicId) {
    step.Subscribe? && RicId(RequestNumber(s.ric), step.inst, step.ran) == id
  }

  lemma DeletedIsGone(s: System, id: RicId)
    requires Inv(s) && Event(Deletion, id) in s.toRic
    ensures Gone(s, id)
  {
    hide RicValid, AgentValid, Replay, SubIds;
  }

  lemma StaysGone(s: System, step: Step, id: RicId)
    requires Inv(s) && Enabled(s, step) && Gone(s, id) && !Reissues(s, step, id)
    ensures Gone(Do(s, step), id)
  {
    if step.AgentHandles? {
      HandleKeeps(s, step.periodic, step.fd);
    }
  }

  /** Once the RIC has handled the delete response for an id, the agent holds no indication event for
      it, and never again until a new subscription is issued under that id. */
  lemma {:induction false} DeletedNeverReturns(states: seq<System>, steps: seq<Step>, i: nat, k: nat, id: RicId)
    requires IsRun(states, steps) && i < k < |states|
    requires steps[i] == RicHandles(Event(Deletion, id))
    requires forall j :: i < j < k ==> !Reissues(states[j], steps[j], id)
    ensures Gone(states[k], id)
    decreases k
  {
    RunKeepsInv(states, steps, k - 1);
    if k == i + 1 {
      DeletedIsGone(states[i], id);
      assert states[k] == Do(states[i], steps[i]);
    } else {
      DeletedNeverReturns(states, steps, i, k - 1, id);
      StaysGone(states[k - 1], steps[k - 1], id);
    }
  }

  // ----- When the 16-bit numbers are distinct --------------------------------------------------

  /** Every live number has been issued, and the counter has not left 16 bits. */
  ghost predicate Issued(s: System) {
    1021 <= s.ric.reqId &&
    (forall ev :: ev in s.ric.pending.Values ==> 1021 <= ev.id.req < s.ric.reqId) &&
    (forall id :: id in SubIds(s.agent) ==> 1021 <= id.req < s.ric.reqId)
  }

  /** For the first 65536 - 1021 requests the numbers are fresh without further condition. */
  lemma IssuedIsFresh(s: System)
    requires Issued(s) && s.ric.reqId < 0x1_0000
    ensures Fresh(s)
  {
  }

  lemma ArmKeepsIssued(s: System, r: Ric, fd: int, ev: Event)
    requires Inv(s) && Issued(s) && r.pending == s.ric.pending && s.ric.reqId <= r.reqId
    requires 1021 <= ev.id.req < r.reqId
    ensures forall e :: e in Arm(r, fd, ev).pending.Values ==> 1021 <= e.id.req < r.reqId
  {
    var p := Arm(r, fd, ev).pending;
    forall e | e in p.Values ensures 1021 <= e.id.req < r.reqId {
      var k := KeyFor(p, e);
      if k != fd {
        assert r.pending[k] in s.ric.pending.Values;
      }
    }
  }

  lemma AgentKeepsIssued(s: System, periodic: bool, fd: int)
    requires Inv(s) && Issued(s) && Enabled(s, AgentHandles(periodic, fd))
    ensures Issued(Do(s, AgentHandles(periodic, fd)))
  {
    hide RicValid, AgentValid, Replay, OwnNumbers, Fresh, Handle, SubIds;
    HandleKeeps(s, periodic, fd);
    InFlightIsPending(s, s.toAgent[0]);
  }

  lemma RicKeepsIssued(s: System, ev: Event)
    requires Inv(s) && Issued(s) && Enabled(s, RicHandles(ev))
    ensures Issued(Do(s, RicHandles(ev)))
  {
    hide RicValid, AgentValid, Replay, OwnNumbers, Fresh, Stop, SubIds;
    InFlightIsPending(s, ev);
    StopFindsTimer(s.ric, ev);
    assert Stop(s.ric, ev).reqId == s.ric.reqId by { StopKeepsCounter(s.ric, ev); }
  }

  /** Deletes that name numbers already issued keep it so. */
  lemma StepKeepsIssued(s: System, step: Step)
    requires Inv(s) && Issued(s) && Enabled(s, step) && s.ric.reqId < 0x1_0000
    requires step.Delete? ==> 1021 <= step.id.req < s.ric.reqId
    ensures Issued(Do(s, step))
  {
    hide RicValid, AgentValid, Replay, OwnNumbers, Fresh, Stop, Handle, SubIds;
    match step
    case AgentHandles(periodic, fd) => AgentKeepsIssued(s, periodic, fd);
    case RicHandles(ev) => RicKeepsIssued(s, ev);
    case SetupResponse(fd) =>
      SetupKeepsIds(s.agent, fd);
    case LinkLoss(fd) =>
      SetupKeepsIds(s.agent, fd);
    case Subscribe(inst, ran, fd) =>
      var r := s.ric.(reqId := s.ric.reqId + 1);
      ArmKeepsIssued(s, r, fd, Event(Subscription, RicId(RequestNumber(s.ric), inst, ran)));
    case ControlRequest(inst, ran, fd) =>
      var r := s.ric.(reqId := s.ric.reqId + 1);
      ArmKeepsIssued(s, r, fd, Event(Control, RicId(RequestNumber(s.ric), inst, ran)));
    case Delete(id, fd) =>
      if Event(Deletion, id) !in s.ric.pending.Values {
        ArmKeepsIssued(s, s.ric, fd, Event(Deletion, id));
      }
  }

  lemma StopKeepsCounter(r: Ric, ev: Event)
    ensures Stop(r, ev).reqId == r.reqId
  {
  }

  lemma SetupKeepsIds(a: Agent, fd: int)
    ensures SubIds(AgentSetupDone(a, fd)) == SubIds(a) && SubIds(AgentArmSetup(a, fd)) == SubIds(a)
  {
  }

  /** In a run whose deletes name numbers issued before, the numbers are fresh at every state the
      counter reaches within 16 bits. */
  lemma {:induction false} FreshAlongRun(states: seq<System>, steps: seq<Step>, i: nat)
    requires IsRun(states, steps) && i < |states| && states[i].ric.reqId < 0x1_0000
    requires forall j :: 0 <= j < i ==> states[j].ric.reqId < 0x1_0000
    requires forall j :: 0 <= j < i && steps[j].Delete? ==> 1021 <= steps[j].id.req < states[j].ric.reqId
    ensures Issued(states[i]) && Fresh(states[i])
    decreases i
  {
    hide Fresh;
    if i == 0 {
      assert states[0].ric.pending.Values == {} && SubIds(states[0].agent) == {};
    } else {
      FreshAlongRun(states, steps, i - 1);
      RunKeepsInv(states, steps, i - 1);
      StepKeepsIssued(states[i - 1], steps[i - 1]);
    }
    IssuedIsFresh(states[i]);
  }

  lemma CounterGrows(s: System, step: Step)
    requires Enabled(s, step)
    ensures s.ric.reqId <= Do(s, step).ric.reqId <= s.ric.reqId + 1
  {
    hide Stop, Handle;
    if step.RicHandles? {
      StopKeepsCounter(s.ric, step.ev);
    }
  }

  /** In a run within 16 bits whose deletes name numbers issued before, a deleted id never returns at all. */
  lemma {:induction false} DeletedStaysDeleted(states: seq<System>, steps: seq<Step>, i: nat, k: nat, id: RicId)
    requires IsRun(states, steps) && i < k < |states|
    requires steps[i] == RicHandles(Event(Deletion, id))
    requires forall j :: 0 <= j < k ==> states[j].ric.reqId < 0x1_0000
    requires forall j :: 0 <= j < k && steps[j].Delete? ==> 1021 <= steps[j].id.req < states[j].ric.reqId
    ensures Gone(states[k], id)
  {
    hide Inv, Do, Enabled, Gone;
    FreshAlongRun(states, steps, i);
    RunKeepsInv(states, steps, i);
    DeletionIsPending(states[i], steps[i], id);
    forall j | i < j < k
      ensures !Reissues(states[j], steps[j], id)
    {
      CounterAlongRun(states, steps, i, j);
    }
    DeletedNeverReturns(states, steps, i, k, id);
  }

  lemma DeletionIsPending(s: System, step: Step, id: RicId)
    requires Inv(s) && Issued(s) && Enabled(s, step) && step == RicHandles(Event(Deletion, id))
    ensures id.req < s.ric.reqId
  {
    hide RicValid, AgentValid, Replay, OwnNumbers;
    InFlightIsPending(s, Event(Deletion, id));
  }

  lemma {:induction false} CounterAlongRun(states: seq<System>, steps: seq<Step>, i: nat, j: nat)
    requires IsRun(states, steps) && i <= j < |states|
    ensures states[i].ric.reqId <= states[j].ric.reqId
    decreases j
  {
    hide Do, Enabled;
    if i < j {
      CounterAlongRun(states, steps, i, j - 1);
      CounterGrows(states[j - 1], steps[j - 1]);
    }
  }

  // ----- When the counter comes round ----------------------------------------------------------

  /** The number of the request that the counter value `c` gives. */
  function Number(c: nat): int { c % 0x1_0000 }

  /** The number was given to a request by a counter value from `lo` up to below `hi`. */
  ghost predicate GivenSince(lo: nat, hi: nat, n: int) { exists c: nat :: lo <= c < hi && Number(c) == n }

  /** Every live number was given since the counter stood at `lo`. */
  ghost predicate Recent(s: System, lo: nat) {
    lo <= s.ric.reqId &&
    (forall ev :: ev in s.ric.pending.Values ==> GivenSince(lo, s.ric.reqId, ev.id.req)) &&
    (forall id :: id in SubIds(s.agent) ==> GivenSince(lo, s.ric.reqId, id.req))
  }

  lemma NumbersApart(c: nat, hi: nat)
    requires 0 < hi - c < 0x1_0000
    ensures Number(c) != Number(hi)
  {
  }

  lemma NumbersDiffer(lo: nat, hi: nat, n: int)
    requires GivenSince(lo, hi, n) && hi - lo < 0x1_0000
    ensures Number(hi) != n
  {
    var c: nat :| lo <= c < hi && Number(c) == n;
    NumbersApart(c, hi);
  }

  /** However often the counter has come round: while fewer than 65536 requests were made since the oldest
      live number was given, the next number is fresh exactly when it is not 0. */
  lemma RecentIsFreshIff(s: System, lo: nat)
    requires Recent(s, lo) && s.ric.reqId - lo < 0x1_0000
    ensures Fresh(s) <==> Number(s.ric.reqId) != 0
  {
    var n := Number(s.ric.reqId);
    assert n == RequestNumber(s.ric) && n >= 0;
    hide Number, SubIds;
    forall ev | ev in s.ric.pending.Values
      ensures ev.id.req != n
    {
      NumbersDiffer(lo, s.ric.reqId, ev.id.req);
    }
    forall id | id in SubIds(s.agent)
      ensures id.req != n
    {
      NumbersDiffer(lo, s.ric.reqId, id.req);
    }
  }

  lemma GivenLater(lo: nat, hi: nat, more: nat, n: int)
    requires GivenSince(lo, hi, n) && hi <= more
    ensures GivenSince(lo, more, n)
  {
    var c: nat :| lo <= c < hi && Number(c) == n;
    assert lo <= c < more && Number(c) == n;
  }

  lemma GivenNow(lo: nat, hi: nat)
    requires lo <= hi
    ensures GivenSince(lo, hi + 1, Number(hi))
  {
    assert lo <= hi < hi + 1 && Number(hi) == Number(hi);
  }

  /** The live numbers after a step: those before it, and that of the request the step makes. */
  lemma LiveAfter(s: System, step: Step)
    requires Inv(s) && Enabled(s, step)
    ensures var t := Do(s, step);
            (forall ev :: ev in t.ric.pending.Values ==>
               ev in s.ric.pending.Values || (step.Delete? && ev.id == step.id) ||
               (t.ric.reqId == s.ric.reqId + 1 && ev.id.req == Number(s.ric.reqId))) &&
            (forall id :: id in SubIds(t.agent) ==>
               id in SubIds(s.agent) ||
                 (s.toAgent != [] && s.toAgent[0] in s.ric.pending.Values && id == s.toAgent[0].id))
  {
    hide RicValid, AgentValid, Replay, OwnNumbers, Fresh, Stop, Handle, SubIds;
    match step
    case AgentHandles(periodic, fd) =>
      HandleKeeps(s, periodic, fd);
      InFlightIsPending(s, s.toAgent[0]);
    case RicHandles(ev) =>
      InFlightIsPending(s, ev);
      StopFindsTimer(s.ric, ev);
    case SetupResponse(fd) =>
      SetupKeepsIds(s.agent, fd);
    case LinkLoss(fd) =>
      SetupKeepsIds(s.agent, fd);
    case Subscribe(inst, ran, fd) =>
      ArmAdds(s.ric.(reqId := s.ric.reqId + 1), fd, Event(Subscription, RicId(RequestNumber(s.ric), inst, ran)));
    case ControlRequest(inst, ran, fd) =>
      ArmAdds(s.ric.(reqId := s.ric.reqId + 1), fd, Event(Control, RicId(RequestNumber(s.ric), inst, ran)));
    case Delete(id, fd) =>
      ArmAdds(s.ric, fd, Event(Deletion, id));
  }

  lemma ArmAdds(r: Ric, fd: int, ev: Event)
    ensures forall e :: e in Arm(r, fd, ev).pending.Values ==> e in r.pending.Values || e == ev
  {
    var p := Arm(r, fd, ev).pending;
    forall e | e in p.Values
      ensures e in r.pending.Values || e == ev
    {
      var k := KeyFor(p, e);
      assert k != fd ==> r.pending[k] == e;
    }
  }

  lemma StepKeepsRecent(s: System, step: Step, lo: nat)
    requires Inv(s) && Recent(s, lo) && Enabled(s, step)
    requires step.Delete? ==> GivenSince(lo, s.ric.reqId, step.id.req)
    ensures Recent(Do(s, step), lo)
  {
    LiveAfter(s, step);
    CounterGrows(s, step);
    GivenNow(lo, s.ric.reqId);
    hide Inv, Enabled, Do, Number, GivenSince, SubIds;
    var t := Do(s, step);
    forall ev | ev in t.ric.pending.Values
      ensures GivenSince(lo, t.ric.reqId, ev.id.req)
    {
      if ev in s.ric.pending.Values || (step.Delete? && ev.id == step.id) {
        GivenLater(lo, s.ric.reqId, t.ric.reqId, ev.id.req);
      }
    }
    forall id | id in SubIds(t.agent)
      ensures GivenSince(lo, t.ric.reqId, id.req)
    {
      GivenLater(lo, s.ric.reqId, t.ric.reqId, id.req);
    }
  }

  /** So along a run, from any state whose live numbers were given since `lo`: every later request gets a fresh
      number as long as fewer than 65536 were made since `lo` and the number is not 0. */
  lemma {:induction false} FreshAcrossWraps(states: seq<System>, steps: seq<Step>, k: nat, i: nat, lo: nat)
    requires IsRun(states, steps) && k <= i < |states| && Recent(states[k], lo)
    requires forall j :: k <= j < i && steps[j].Delete? ==> GivenSince(lo, states[j].ric.reqId, steps[j].id.req)
    ensures Recent(states[i], lo)
    ensures states[i].ric.reqId - lo < 0x1_0000 ==> (Fresh(states[i]) <==> Number(states[i].ric.reqId) != 0)
    decreases i
  {
    hide Fresh, Recent, Do, Enabled, Inv;
    if k < i {
      FreshAcrossWraps(states, steps, k, i - 1, lo);
      RunKeepsInv(states, steps, i - 1);
      StepKeepsRecent(states[i - 1], steps[i - 1], lo);
    }
    if states[i].ric.reqId - lo < 0x1_0000 {
      RecentIsFreshIff(states[i], lo);
    }
  }
}
