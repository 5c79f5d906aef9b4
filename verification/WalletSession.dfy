/** The wallet client itself: its module-level variables as fields, its synchronous stretches as
    methods. Each method is tied to the function of WalletState or to the segment of WalletSegments
    that describes its whole effect; WalletPage runs them. */
module WalletSession {
  import opened Wrappers
  import opened WalletState
  import opened WalletInvariants
  import opened WalletProtocol
  import opened WalletSegments

  datatype ProviderEvent = AccountsChangedEvent | ChainChangedEvent | DisconnectedEvent

  class Session {
    var address: Option<string>
    var provider: Option<ProviderId>
    var walletConnectProvider: Option<ProviderId>
    var boundProvider: Option<ProviderId>
    var wcGeneration: nat
    var connectLock: bool
    var storedKind: Option<Connector>
    var storedRdns: Option<string>
    // what the provider objects carry, and what the listeners have been told
    var handlers: map<ProviderId, Handlers>
    var emitted: seq<Snapshot>

    function State(): Wallet
      reads this
    {
      Wallet(address, provider, walletConnectProvider, boundProvider, wcGeneration, connectLock,
             storedKind, storedRdns, handlers, emitted)
    }

    constructor (kind: Option<Connector>, rdns: Option<string>)
      ensures State() == PageLoad(kind, rdns)
    {
      address, provider, walletConnectProvider, boundProvider := None, None, None, None;
      wcGeneration, connectLock := 0, false;
      storedKind, storedRdns := kind, rdns;
      handlers, emitted := map[], [];
    }

    method Emit()
      modifies this`emitted
      ensures State() == WalletState.Emit(old(State()))
    {
      emitted := emitted + [Snapshot(address, provider)];
    }

    // ----- the provider object: its listeners and the flag the client sets on it -----

    method On(p: ProviderId, event: ProviderEvent)
      modifies this`handlers
      ensures var h := HandlersOf(old(State()), p);
              handlers == old(handlers)[p := match event
                                             case AccountsChangedEvent => h.(accounts := h.accounts + 1)
                                             case ChainChangedEvent => h.(chain := h.chain + 1)
                                             case DisconnectedEvent => h.(disconnect := h.disconnect + 1)]
    {
      var h := HandlersOf(State(), p);
      match event {
        case AccountsChangedEvent => h := h.(accounts := h.accounts + 1);
        case ChainChangedEvent => h := h.(chain := h.chain + 1);
        case DisconnectedEvent => h := h.(disconnect := h.disconnect + 1);
      }
      handlers := handlers[p := h];
    }

    method RemoveListener(p: ProviderId, event: ProviderEvent)
      modifies this`handlers
      ensures var h := HandlersOf(old(State()), p);
              handlers == old(handlers)[p := match event
                                             case AccountsChangedEvent => h.(accounts := Fewer(h.accounts))
                                             case ChainChangedEvent => h.(chain := Fewer(h.chain))
                                             case DisconnectedEvent => h.(disconnect := Fewer(h.disconnect))]
    {
      var h := HandlersOf(State(), p);
      match event {
        case AccountsChangedEvent => h := h.(accounts := Fewer(h.accounts));
        case ChainChangedEvent => h := h.(chain := Fewer(h.chain));
        case DisconnectedEvent => h := h.(disconnect := Fewer(h.disconnect));
      }
      handlers := handlers[p := h];
    }

    method SetFlag(p: ProviderId, flag: bool)
      modifies this`handlers
      ensures handlers == old(handlers)[p := HandlersOf(old(State()), p).(flagged := flag)]
    {
      handlers := handlers[p := HandlersOf(State(), p).(flagged := flag)];
    }

    // ----- binding -----

    method UnbindProvider(p: Option<ProviderId>)
      modifies this`handlers, this`boundProvider
      ensures State() == Unbind(old(State()), p)
    {
      if p.None? {
        return;
      }
      ghost var h := HandlersOf(State(), p.value);
      RemoveListener(p.value, AccountsChangedEvent);
      RemoveListener(p.value, ChainChangedEvent);
      RemoveListener(p.value, DisconnectedEvent);
      SetFlag(p.value, false);
      assert handlers == old(handlers)[p.value := Handlers(false, Fewer(h.accounts), Fewer(h.chain), Fewer(h.disconnect))];
      if boundProvider == p {
        boundProvider := None;
      }
    }

    method Register(p: ProviderId)
      modifies this`handlers
      ensures var h := HandlersOf(old(State()), p);
              handlers == old(handlers)[p := Handlers(true, h.accounts + 1, h.chain + 1, h.disconnect + 1)]
    {
      ghost var h := HandlersOf(State(), p);
      SetFlag(p, true);
      On(p, AccountsChangedEvent);
      On(p, ChainChangedEvent);
      On(p, DisconnectedEvent);
      assert HandlersOf(State(), p) == Handlers(true, h.accounts + 1, h.chain + 1, h.disconnect + 1);
    }

    method BindProviderListeners(next: ProviderId)
      modifies this`handlers, this`boundProvider
      ensures State() == Bind(old(State()), next)
      ensures old(HandlersOnlyOn(State(), boundProvider)) ==> HandlersOnlyOn(State(), Some(next))
    {
      if HandlersOnlyOn(State(), boundProvider) {
        BindingIsHandedOver(State(), next);
      }
      if boundProvider.Some? && boundProvider != Some(next) {
        UnbindProvider(boundProvider);
      }
      if HandlersOf(State(), next).flagged {
        boundProvider := Some(next);
        return;
      }
      Register(next);
      boundProvider := Some(next);
    }

    method BindWalletListeners()
      modifies this`handlers, this`boundProvider
      ensures State() == if old(provider).Some? then Bind(old(State()), old(provider).value) else old(State())
    {
      if provider.Some? {
        BindProviderListeners(provider.value);
      }
    }

    // ----- logging out, and what the provider tells us -----

    method ClearWalletConnect()
      modifies this`walletConnectProvider
      ensures State() == WalletState.ClearWalletConnect(old(State()))
    {
      walletConnectProvider := None;
    }

    method FullLogout()
      modifies this
      ensures State() == Logout(old(State()))
      ensures old(HandlersFollowProvider(State())) ==> HandlersOnlyOn(State(), None)
    {
      if HandlersFollowProvider(State()) {
        LogoutLeavesNothing(State());
      }
      var active := provider;
      address := None;
      provider := None;
      storedKind := None;
      storedRdns := None;
      Emit();
      UnbindProvider(active);
      ClearWalletConnect();
    }

    method OnAccountsChanged(accounts: seq<string>)
      modifies this
      ensures State() == AccountsChanged(old(State()), accounts)
      ensures old(HandlersFollowProvider(State()) && provider.Some?) ==>
                HandlersFollowProvider(State()) && provider == if Usable(accounts) then old(provider) else None
    {
      if HandlersFollowProvider(State()) && provider.Some? {
        AccountsAreFollowed(State(), accounts);
      }
      address := if |accounts| > 0 && accounts[0] != "" then Some(accounts[0]) else None;
      if address.None? {
        FullLogout();
        return;
      }
      if storedKind.None? {
        storedKind := Some(if walletConnectProvider == provider then WalletConnect else Injected);
      }
      Emit();
    }

    /** The provider object runs every copy of the handler that is registered on it. */
    method DispatchAccountsChanged(p: ProviderId, accounts: seq<string>)
      modifies this
      ensures State() == DeliverAccounts(old(State()), accounts, HandlersOf(old(State()), p).accounts)
    {
      var copies := HandlersOf(State(), p).accounts;
      ghost var result := DeliverAccounts(State(), accounts, copies);
      while copies > 0
        invariant DeliverAccounts(State(), accounts, copies) == result
      {
        OnAccountsChanged(accounts);
        copies := copies - 1;
      }
    }

    method OnChainChanged()
      modifies this`emitted
      ensures State() == WalletState.Emit(old(State()))
    {
      Emit();
    }

    method OnDisconnect()
      modifies this
      ensures State() == Logout(old(State()))
    {
      FullLogout();
    }

    method DispatchChainChanged(p: ProviderId)
      modifies this
      ensures State() == DeliverChain(old(State()), HandlersOf(old(State()), p).chain)
    {
      var copies := HandlersOf(State(), p).chain;
      ghost var result := DeliverChain(State(), copies);
      while copies > 0
        invariant DeliverChain(State(), copies) == result
      {
        OnChainChanged();
        copies := copies - 1;
      }
    }

    method DispatchDisconnect(p: ProviderId)
      modifies this
      ensures State() == DeliverDisconnect(old(State()), HandlersOf(old(State()), p).disconnect)
    {
      var copies := HandlersOf(State(), p).disconnect;
      ghost var result := DeliverDisconnect(State(), copies);
      while copies > 0
        invariant DeliverDisconnect(State(), copies) == result
      {
        OnDisconnect();
        copies := copies - 1;
      }
    }

    // ----- the committing segments of the three ways to connect -----

    method CommitInjected(wallet: ProviderId, account: string, rdns: string)
      modifies this
      ensures State() == InstallInjected(old(State()), wallet, account, rdns)
    {
      provider := Some(wallet);
      BindProviderListeners(wallet);
      address := Some(account);
      storedKind := Some(Injected);
      storedRdns := Some(rdns);
      Emit();
    }

    method CommitWalletConnect(wc: ProviderId, account: string)
      modifies this
      ensures State() == InstallWalletConnect(old(State()), wc, account)
    {
      if provider.Some? && provider != Some(wc) {
        UnbindProvider(provider);
      }
      provider := Some(wc);
      BindProviderListeners(wc);
      address := Some(account);
      storedKind := Some(WalletConnect);
      storedRdns := None;
      Emit();
    }

    method CommitSilently(wallet: ProviderId, account: string)
      modifies this
      ensures State() == InstallSilently(old(State()), wallet, account)
    {
      provider := Some(wallet);
      BindProviderListeners(wallet);
      address := Some(account);
      Emit();
    }

    // ----- connectInjected -----

    method ConnectInjected(wallet: Option<ProviderId>, rdns: string) returns (next: Option<Op>)
      ensures (State(), next) == FirstSegment(State(), StartInjected(wallet, rdns))
    {
      return Some(if wallet.Some? then InjectedRequest(wallet.value, rdns) else InjectedDiscover(rdns));
    }

    method ResumeInjected(op: Op, a: Answer) returns (next: Option<Op>)
      requires op.InjectedDiscover? || op.InjectedRequest? || op.InjectedClear? || op.InjectedMonad?
      modifies this
      ensures (State(), next) == Segment(old(State()), op, a)
    {
      match op {
        case InjectedDiscover(rdns) =>
          return if |a.found| == 0 then None else Some(InjectedRequest(a.found[0].provider, rdns));
        case InjectedRequest(wallet, rdns) =>
          if |a.accounts| == 0 {
            return None;
          }
          if walletConnectProvider.Some? && walletConnectProvider != Some(wallet) {
            ClearWalletConnect();
            return Some(InjectedClear(wallet, rdns, a.accounts[0]));
          }
          CommitInjected(wallet, a.accounts[0], rdns);
          return Some(InjectedMonad);
        case InjectedClear(wallet, rdns, account) =>
          CommitInjected(wallet, account, rdns);
          return Some(InjectedMonad);
        case InjectedMonad => return None;
      }
    }

    // ----- connectWalletConnect and its lock -----

    method GetWalletConnectProvider(gen: nat) returns (next: Op)
      ensures next == AttemptProvider(State(), gen)
    {
      next := if walletConnectProvider.Some? then AttemptGot(gen, walletConnectProvider.value) else AttemptLoad(gen);
    }

    method ConnectWalletConnect(session: bool) returns (next: Option<Op>)
      modifies this
      ensures (State(), next) == FirstSegment(old(State()), StartWalletConnect(session))
    {
      if connectLock {
        return None;
      }
      connectLock := true;
      wcGeneration := wcGeneration + 1;
      var gen := wcGeneration;
      if walletConnectProvider.Some? && !session {
        ClearWalletConnect();
        return Some(AttemptClear(gen));
      }
      var waiting := GetWalletConnectProvider(gen);
      return Some(waiting);
    }

    /** The stretch behind the second generation check. */
    method Paired(gen: nat, wc: ProviderId, a: Answer) returns (next: Option<Op>)
      modifies this
      ensures State() == if |a.accounts| > 0 then InstallWalletConnect(old(State()), wc, a.accounts[0]) else old(State())
      ensures next == Some(if |a.accounts| > 0 then AttemptMonad(gen) else AttemptAccounts(gen, wc))
    {
      if |a.accounts| == 0 {
        return Some(AttemptAccounts(gen, wc));
      }
      CommitWalletConnect(wc, a.accounts[0]);
      return Some(AttemptMonad(gen));
    }

    method ResumeAttempt(op: Op, a: Answer) returns (next: Option<Op>)
      requires op.IsAttempt()
      modifies this
      ensures (State(), next) == Segment(old(State()), op, a)
    {
      match op {
        case AttemptClear(gen) =>
          var waiting := GetWalletConnectProvider(gen);
          return Some(waiting);
        case AttemptLoad(gen) => return Some(AttemptInit(gen));
        case AttemptInit(gen) =>
          walletConnectProvider := Some(a.created);
          return Some(AttemptGot(gen, a.created));
        case AttemptGot(gen, wc) =>
          if gen == wcGeneration && !a.session {
            return Some(AttemptPairing(gen, wc));
          }
          if gen == wcGeneration {
            next := Paired(gen, wc, a);
            return;
          }
          EndAttempt(gen);
        case AttemptPairing(gen, wc) =>
          if gen == wcGeneration {
            next := Paired(gen, wc, a);
            return;
          }
          EndAttempt(gen);
        case AttemptAccounts(gen, wc) =>
          if |a.accounts| == 0 {
            ClearWalletConnect();
            return Some(AttemptEmpty(gen));
          }
          next := Paired(gen, wc, a);
          return;
        case AttemptEmpty(gen) => EndAttempt(gen);
        case AttemptMonad(gen) => EndAttempt(gen);
      }
      return None;
    }

    method AbortWalletConnect(session: bool)
      modifies this`wcGeneration, this`connectLock, this`walletConnectProvider
      ensures State() == Abort(old(State()), session)
    {
      wcGeneration := wcGeneration + 1;
      connectLock := false;
      if walletConnectProvider.Some? && !session {
        ClearWalletConnect();
      }
    }

    /** The finally block. */
    method EndAttempt(gen: nat)
      modifies this`connectLock
      ensures State() == WalletState.EndAttempt(old(State()), gen)
    {
      if gen == wcGeneration {
        connectLock := false;
      }
    }

    // ----- silentConnect -----

    method SilentConnect() returns (next: Option<Op>)
      ensures (State(), next) == FirstSegment(State(), StartSilent)
    {
      match storedKind {
        case None => return None;
        case Some(WalletConnect) =>
          return Some(if walletConnectProvider.Some? then SilentGot(walletConnectProvider.value) else SilentLoad);
        case Some(Injected) => return Some(SilentDiscover);
      }
    }

    method ForgetWalletConnect() returns (next: Option<Op>)
      modifies this`storedKind, this`walletConnectProvider
      ensures State() == WalletState.ClearWalletConnect(old(State()).(kind := None)) && next == Some(SilentClear)
    {
      storedKind := None;
      ClearWalletConnect();
      return Some(SilentClear);
    }

    method ResumeSilentWalletConnect(op: Op, a: Answer) returns (next: Option<Op>)
      requires op.SilentLoad? || op.SilentInit? || op.SilentGot? || op.SilentAccounts? || op.SilentClear?
      modifies this
      ensures (State(), next) == Segment(old(State()), op, a)
    {
      match op {
        case SilentLoad => return Some(SilentInit);
        case SilentInit =>
          walletConnectProvider := Some(a.created);
          return Some(SilentGot(a.created));
        case SilentGot(wc) =>
          if !a.session {
            next := ForgetWalletConnect();
            return;
          }
          if |a.accounts| == 0 {
            return Some(SilentAccounts(wc));
          }
          CommitSilently(wc, a.accounts[0]);
          return None;
        case SilentAccounts(wc) =>
          if |a.accounts| == 0 {
            next := ForgetWalletConnect();
            return;
          }
          CommitSilently(wc, a.accounts[0]);
          return None;
        case SilentClear => return None;
      }
    }

    method ResumeSilentInjected(op: Op, a: Answer) returns (next: Option<Op>)
      requires op.SilentDiscover? || op.SilentMatch?
      modifies this
      ensures (State(), next) == Segment(old(State()), op, a)
    {
      match op {
        case SilentDiscover =>
          var found := None;
          if storedRdns.Some? && storedRdns.value != "" {
            found := Match(a.found, storedRdns.value);
          }
          if found.None? {
            storedKind := None;
            storedRdns := None;
            return None;
          }
          return Some(SilentMatch(storedRdns.value, found.value));
        case SilentMatch(rdns, wallet) =>
          if |a.accounts| == 0 {
            return None;
          }
          CommitSilently(wallet, a.accounts[0]);
          return None;
      }
    }

    // ----- a call whose awaited promise settles -----

    method ResumeCall(op: Op, a: Answer) returns (next: Option<Op>)
      modifies this
      ensures (State(), next) == Segment(old(State()), op, a)
    {
      if op.IsAttempt() {
        next := ResumeAttempt(op, a);
      } else if op.SilentDiscover? || op.SilentMatch? {
        next := ResumeSilentInjected(op, a);
      } else if op.IsSilent() {
        next := ResumeSilentWalletConnect(op, a);
      } else {
        next := ResumeInjected(op, a);
      }
    }

    /** The call throws; only an attempt has a finally block. */
    method RejectCall(op: Op)
      modifies this`connectLock
      ensures State() == if op.IsAttempt() then WalletState.EndAttempt(old(State()), op.gen) else old(State())
    {
      if op.IsAttempt() {
        EndAttempt(op.gen);
      }
    }
  }
}
