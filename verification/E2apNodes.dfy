/** The two parties of E2ap as the objects the C code updates: `near_ric_t` and `e2_agent_t`. Each
    handler is proved to do to its object what the function of E2ap does to the state. */
module E2apNodes {
  import opened E2ap

  class NearRic {
    const ep: int
    var reqId: nat
    var pending: map<int, Event>
    /** The descriptors in the epoll set. */
    var watched: set<int>

    ghost function Abs(): Ric
      reads this
    {
      Ric(ep, reqId, pending, watched)
    }

    constructor (ep: int)
      requires ep > 0
      ensures RicValid(Abs()) && Abs() == Ric(ep, 1021, map[], {ep})
    {
      this.ep, reqId, pending, watched := ep, 1021, map[], {ep};
    }

    /** Timer and bimap entry of a request; `fd` is the descriptor timerfd_create returned. */
    method ArmTimer(fd: int, ev: Event)
      requires RicWatch(Abs()) && FreshTimer(watched, fd)
      modifies this
      ensures RicWatch(Abs()) && Abs() == Arm(old(Abs()), fd, ev)
      ensures RicValid(Abs()) <==> RicValid(old(Abs())) && ev !in old(pending).Values
    {
      ArmKeeps(Abs(), fd, ev);
      watched := watched + {fd};
      pending := pending[fd := ev];
    }

    /** fwd_ric_subscription_request and fwd_ric_control_request: `ev` is what is sent. */
    method Request(kind: Kind, inst: int, ran: int, fd: int) returns (ev: Event)
      requires RicWatch(Abs()) && FreshTimer(watched, fd)
      modifies this
      ensures RicWatch(Abs()) && (Abs(), ev) == RicRequest(old(Abs()), kind, inst, ran, fd)
      ensures RicValid(Abs()) <==> RicValid(old(Abs())) && ev !in old(pending).Values
      ensures ev.id.req == old(reqId) % 0x1_0000
    {
      var number := reqId % 0x1_0000;
      reqId := reqId + 1;
      ev := Event(kind, RicId(number, inst, ran));
      ArmTimer(fd, ev);
    }

    /** fwd_ric_subscription_request_delete: `sent` tells whether a message goes out. */
    method RequestDelete(id: RicId, fd: int) returns (sent: bool)
      requires RicWatch(Abs())
      requires Event(Deletion, id) !in pending.Values ==> FreshTimer(watched, fd)
      modifies this
      ensures RicWatch(Abs()) && Abs() == RicDelete(old(Abs()), id, fd)
      ensures RicValid(Abs()) <==> RicValid(old(Abs()))
      ensures sent == (Event(Deletion, id) !in old(pending).Values)
    {
      var ev := Event(Deletion, id);
      if ev in pending.Values {
        return false;
      }
      ArmTimer(fd, ev);
      sent := true;
    }

    /** stop_pending_event, called by the four response handlers: one timer that waits for the event, the only
        one when no two entries wait for one event. */
    method StopPending(ev: Event) returns (fd: int)
      requires RicWatch(Abs()) && ev in pending.Values
      modifies this
      ensures fd in old(pending) && old(pending)[fd] == ev && fd in old(watched)
      ensures RicWatch(Abs()) && Abs() == old(Abs()).(pending := old(pending) - {fd}, watched := old(watched) - {fd})
      ensures RicValid(old(Abs())) ==>
                RicValid(Abs()) && Abs() == Stop(old(Abs()), ev) && pending.Values == old(pending).Values - {ev}
    {
      ghost var was := Abs();
      if RicValid(was) {
        StopFindsTimer(was, ev);
      }
      ghost var one := KeyFor(pending, ev);
      fd :| fd in pending && pending[fd] == ev;
      pending := pending - {fd};
      watched := watched - {fd};
      if RicValid(was) {
        assert pending == Stop(was, ev).pending;
        assert watched == Stop(was, ev).watched;
      }
    }

    /** next_asio_event_ric and pend_event: what a descriptor that epoll returns stands for. */
    method Classify(fd: int) returns (network: bool, ev: Event)
      requires RicWatch(Abs()) && fd in watched
      ensures network == (fd == ep)
      ensures !network ==> fd in pending && ev == pending[fd]
    {
      network := fd == ep;
      ev := if network then Event(Control, RicId(0, 0, 0)) else pending[fd];
    }
  }

  datatype Descriptor = Network | AperiodicPipe | Indication(e: IndEvent) | SetupTimer

  class E2Agent {
    const sock: int
    const pipe: int
    var indEvent: map<int, IndEvent>
    var pending: set<int>
    var watched: set<int>

    ghost function Abs(): Agent
      reads this
    {
      Agent(sock, pipe, indEvent, pending, watched)
    }

    /** e2_init_agent and e2_start_agent: `timer` waits for the setup response. */
    constructor (sock: int, pipe: int, timer: int)
      requires sock > 0 && pipe > 0 && timer > 0 && sock != pipe && timer !in {sock, pipe}
      ensures AgentValid(Abs()) && Abs() == Agent(sock, pipe, map[], {timer}, {sock, pipe, timer})
    {
      this.sock, this.pipe := sock, pipe;
      indEvent, pending, watched := map[], {timer}, {sock, pipe, timer};
    }

    /** e2ap_handle_subscription_request_agent. `fd` is a new timer when the answer is periodic. */
    method HandleSubscription(id: RicId, periodic: bool, fd: int) returns (response: Event)
      requires AgentValid(Abs()) && id !in SubIds(Abs())
      requires if periodic then FreshTimer(watched, fd) else id.req >= 0 && -id.req !in indEvent
      modifies this
      ensures AgentValid(Abs()) && Abs() == AgentSubscribe(old(Abs()), id, periodic, fd)
      ensures response == Event(Subscription, id)
    {
      SubscribeKeeps(Abs(), id, periodic, fd);
      if periodic {
        watched := watched + {fd};
        indEvent := indEvent[fd := IndEvent(id, true)];
      } else {
        indEvent := indEvent[-id.req := IndEvent(id, false)];
      }
      response := Event(Subscription, id);
    }

    /** stop_ind_event. */
    method StopIndEvent(id: RicId) returns (found: bool)
      requires AgentValid(Abs())
      modifies this
      ensures AgentValid(Abs()) && Abs() == AgentDelete(old(Abs()), id)
      ensures found == (id in SubIds(old(Abs())))
    {
      DeleteKeeps(Abs(), id);
      ghost var was := Abs();
      if !exists k :: k in indEvent && indEvent[k].id == id {
        assert AgentDelete(was, id).ind == indEvent;
        assert Removed(was, id) == {};
        assert id !in SubIds(was);
        return false;
      }
      var fd :| fd in indEvent && indEvent[fd].id == id;
      assert forall k :: k in KeysOf(was, id) ==> was.ind[k].id == was.ind[fd].id && k == fd;
      assert fd in KeysOf(was, id);
      assert KeysOf(was, id) == {fd};
      indEvent := indEvent - {fd};
      if fd > -1 {
        watched := watched - {fd};
      }
      assert indEvent == AgentDelete(was, id).ind;
      assert watched == AgentDelete(was, id).watched;
      found := true;
    }

    /** e2ap_handle_subscription_delete_request_agent: answered whether or not the id was found. */
    method HandleDelete(id: RicId) returns (response: Event)
      requires AgentValid(Abs())
      modifies this
      ensures AgentValid(Abs()) && Abs() == AgentDelete(old(Abs()), id)
      ensures response == Event(Deletion, id)
    {
      var found := StopIndEvent(id);
      response := Event(Deletion, id);
    }

    /** e2ap_handle_setup_response_agent, through stop_pending_event: one setup timer is stopped. */
    method HandleSetupResponse() returns (fd: int)
      requires AgentValid(Abs()) && pending != {}
      modifies this
      ensures fd in old(pending) && fd in old(watched)
      ensures AgentValid(Abs()) && Abs() == AgentSetupDone(old(Abs()), fd)
    {
      SingleOrNone(pending);
      fd :| fd in pending;
      SetupKeeps(Abs(), fd);
      watched := watched - {fd};
      pending := pending - {fd};
    }

    /** notification_handle_ag: the link is lost and a setup timer is armed. */
    method HandleLinkLoss(fd: int)
      requires AgentValid(Abs()) && FreshTimer(watched, fd)
      modifies this
      ensures AgentValid(Abs()) && Abs() == AgentArmSetup(old(Abs()), fd)
      ensures |pending| == old(|pending|) + 1
    {
      SetupKeeps(Abs(), fd);
      watched := watched + {fd};
      pending := pending + {fd};
    }

    /** next_async_event_agent: every descriptor that epoll can return is one of the four kinds. `holds` is
        the assertion of pend_event, which can fail for a setup timer only. */
    method Classify(fd: int) returns (kind: Descriptor, holds: bool)
      requires AgentValid(Abs()) && fd in watched
      ensures kind.Network? <==> fd == sock
      ensures kind.AperiodicPipe? <==> fd == pipe
      ensures kind.Indication? <==> fd in indEvent
      ensures kind.Indication? ==> kind.e == indEvent[fd] && kind.e.periodic
      ensures kind.SetupTimer? <==> fd in pending
      ensures holds <==> (kind.SetupTimer? ==> pending == {fd})
    {
      holds := true;
      if fd == sock {
        kind := Network;
      } else if fd == pipe {
        kind := AperiodicPipe;
      } else if fd in indEvent {
        kind := Indication(indEvent[fd]);
      } else {
        kind, holds := SetupTimer, |pending| == 1;
        SingleSetupTimer(pending, fd);
      }
    }
  }

  lemma SingleSetupTimer(pending: set<int>, fd: int)
    requires fd in pending
    ensures |pending| == 1 <==> pending == {fd}
  {
    assert |pending - {fd}| == |pending| - 1;
    assert |pending| == 1 ==> pending - {fd} == {};
  }
}
