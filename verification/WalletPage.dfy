/** A page: the wallet client together with the calls it has in flight, driven by the events of a
    schedule. It goes through the very states of the runs, so it has what is proved about all runs. */
module WalletPage {
  import opened Wrappers
  import opened WalletState
  import opened WalletProtocol
  import opened WalletInvariants
  import opened WalletSegments
  import opened WalletSession

  class Page {
    const session: Session
    var calls: map<nat, Op>
    var nextId: nat

    ghost predicate Shows(s: System)
      reads this, session
    {
      session.State() == s.w && calls == s.ops && nextId == s.nextId
    }

    constructor (kind: Option<Connector>, rdns: Option<string>)
      ensures fresh(session) && Shows(Load(kind, rdns))
    {
      session := new Session(kind, rdns);
      calls := map[];
      nextId := 0;
    }

    /** A call of an exported function has come to its first await, or is over. */
    method Track(next: Option<Op>)
      modifies this
      ensures calls == if next.Some? then old(calls)[old(nextId) := next.value] else old(calls)
      ensures nextId == old(nextId) + if next.Some? then 1 else 0
    {
      if next.Some? {
        calls := calls[nextId := next.value];
        nextId := nextId + 1;
      }
    }

    method Call(e: Event, ghost s: System)
      requires Shows(s) && (e.StartInjected? || e.StartWalletConnect? || e.StartSilent?)
      modifies this, session
      ensures Shows(Next(s, e))
    {
      var next;
      match e {
        case StartInjected(wallet, rdns) => next := session.ConnectInjected(wallet, rdns);
        case StartWalletConnect(live) => next := session.ConnectWalletConnect(live);
        case StartSilent => next := session.SilentConnect();
      }
      Track(next);
      StartIsLocal(s, e);
    }

    /** A promise that a call awaits is settled. */
    method Settle(e: Event, ghost s: System)
      requires Shows(s) && (e.Resume? || e.Reject?)
      modifies this, session
      ensures Shows(Next(s, e))
    {
      if e.id !in calls {
        return;
      }
      var op := calls[e.id];
      if e.Resume? {
        var next := session.ResumeCall(op, e.answer);
        calls := if next.Some? then calls[e.id := next.value] else calls - {e.id};
        SegmentIsLocal(s, e.id, e.answer);
      } else if op.CanReject() {
        session.RejectCall(op);
        calls := calls - {e.id};
      }
    }

    method Deliver(e: Event, ghost s: System)
      requires Shows(s)
      modifies this, session
      ensures Shows(Next(s, e))
    {
      match e {
        case StartInjected(_, _) => Call(e, s);
        case StartWalletConnect(_) => Call(e, s);
        case StartSilent => Call(e, s);
        case Resume(_, _) => Settle(e, s);
        case Reject(_) => Settle(e, s);
        case AbortWalletConnect(live) => session.AbortWalletConnect(live);
        case Disconnect => session.FullLogout();
        case Rebind => session.BindWalletListeners();
        case AccountsEvent(p, accounts) => session.DispatchAccountsChanged(p, accounts);
        case ChainEvent(p) => session.DispatchChainChanged(p);
        case DisconnectEvent(p) => session.DispatchDisconnect(p);
      }
    }
  }

  /** Loads a page and lets any schedule of events happen to it. */
  method RunPage(kind: Option<Connector>, rdns: Option<string>, es: seq<Event>) returns (page: Page)
    ensures fresh(page) && fresh(page.session)
    ensures page.Shows(Run(Load(kind, rdns), es))
    ensures HandlersFollowProvider(page.session.State())
    ensures page.session.address.Some? <==> page.session.provider.Some?
    ensures page.session.connectLock <==>
            exists id :: id in page.calls && page.calls[id].IsAttempt() && page.calls[id].gen == page.session.wcGeneration
  {
    page := new Page(kind, rdns);
    for k := 0 to |es|
      invariant fresh(page) && fresh(page.session)
      invariant page.Shows(Run(Load(kind, rdns), es[..k]))
    {
      assert es[..k + 1][..k] == es[..k];
      page.Deliver(es[k], Run(Load(kind, rdns), es[..k]));
    }
    assert es[..|es|] == es;
    RunsStayConsistent(kind, rdns, es);
    LockIsHeldInFlight(Run(Load(kind, rdns), es));
  }

  lemma LockIsHeldInFlight(s: System)
    requires AttemptsOrdered(s)
    ensures s.w.locked <==> exists id :: id in s.ops && s.ops[id].IsAttempt() && s.ops[id].gen == s.w.generation
  {
    if s.w.locked {
      var id :| Current(s, id);
    }
    if id :| id in s.ops && s.ops[id].IsAttempt() && s.ops[id].gen == s.w.generation {
      assert Current(s, id);
    }
  }
}
