/** What every run of the wallet protocol keeps. */
module WalletInvariants {
  import opened Wrappers
  import opened WalletState
  import opened WalletProtocol

  /** This provider is the bound one and carries each handler once, all others carry none. */
  ghost predicate HandlersOnlyOn(w: Wallet, bound: Option<ProviderId>) {
    && w.bound == bound
    && forall p: ProviderId :: HandlersOf(w, p) == if bound == Some(p) then BOUND else CLEAN
  }

  ghost predicate HandlersFollowProvider(w: Wallet) {
    HandlersOnlyOn(w, w.provider)
  }

  /** An address is shown exactly while a provider is, and that provider has reported it. */
  predicate Reportable(address: Option<string>, provider: Option<ProviderId>, reports: set<(ProviderId, string)>) {
    match (address, provider)
    case (Some(a), Some(p)) => (p, a) in reports
    case (None, None) => true
    case _ => false
  }

  ghost predicate AddressesReported(s: System) {
    && Reportable(s.w.address, s.w.provider, s.reports)
    && (forall i :: 0 <= i < |s.w.emitted| ==>
          Reportable(s.w.emitted[i].address, s.w.emitted[i].provider, s.reports))
    && (forall id :: id in s.ops && s.ops[id].InjectedClear? ==>
          (s.ops[id].wallet, s.ops[id].account) in s.reports)
  }

  predicate Current(s: System, id: nat) {
    id in s.ops && s.ops[id].IsAttempt() && s.ops[id].gen == s.w.generation
  }

  /** Attempts in flight hold distinct generations, none newer than the counter, and the lock is held
      exactly while one of them is current. */
  ghost predicate AttemptsOrdered(s: System) {
    && (forall id :: id in s.ops ==> id < s.nextId)
    && (forall id :: id in s.ops && s.ops[id].IsAttempt() ==> s.ops[id].gen <= s.w.generation)
    && (forall i, j :: i in s.ops && j in s.ops && i != j && s.ops[i].IsAttempt() && s.ops[j].IsAttempt() ==>
          s.ops[i].gen != s.ops[j].gen)
    && (s.w.locked <==> exists id :: Current(s, id))
  }

  ghost predicate Consistent(s: System) {
    HandlersFollowProvider(s.w) && AddressesReported(s) && AttemptsOrdered(s)
  }

  // ----- one segment -----

  /** Installing a provider by any of the three routes moves the handlers to it. */
  lemma InstallMovesHandlers(w: Wallet, p: ProviderId, account: string, rdns: string)
    requires HandlersFollowProvider(w)
    ensures HandlersFollowProvider(InstallInjected(w, p, account, rdns))
    ensures HandlersFollowProvider(InstallWalletConnect(w, p, account))
    ensures HandlersFollowProvider(InstallSilently(w, p, account))
  {
    assert HandlersOf(w, p) == if w.provider == Some(p) then BOUND else CLEAN;
    forall q: ProviderId
      ensures HandlersOf(InstallInjected(w, p, account, rdns), q) == if q == p then BOUND else CLEAN
      ensures HandlersOf(InstallWalletConnect(w, p, account), q) == if q == p then BOUND else CLEAN
      ensures HandlersOf(InstallSilently(w, p, account), q) == if q == p then BOUND else CLEAN
    {
      assert HandlersOf(w, q) == if w.provider == Some(q) then BOUND else CLEAN;
    }
  }

  lemma LogoutClearsHandlers(w: Wallet)
    requires HandlersFollowProvider(w.(provider := w.bound))
    requires w.provider == w.bound
    ensures HandlersFollowProvider(Logout(w))
  {
    forall q: ProviderId ensures HandlersOf(Logout(w), q) == CLEAN {
      assert HandlersOf(w, q) == if w.provider == Some(q) then BOUND else CLEAN;
    }
  }

  /** Nothing the handler invariant looks at differs. */
  predicate SameBinding(w: Wallet, w': Wallet) {
    w'.bound == w.bound && w'.provider == w.provider && w'.handlers == w.handlers
  }

  lemma BindingFrame(w: Wallet, w': Wallet)
    requires HandlersFollowProvider(w) && SameBinding(w, w')
    ensures HandlersFollowProvider(w')
  {
    forall p: ProviderId ensures HandlersOf(w', p) == HandlersOf(w, p) {
    }
  }

  lemma HandlersInjected(s: System, id: nat, op: Op, a: Answer)
    requires HandlersFollowProvider(s.w)
    ensures HandlersFollowProvider(ResumeInjected(s, id, op, a).w)
  {
    match op
    case InjectedRequest(wallet, rdns) =>
      if |a.accounts| > 0 {
        InstallMovesHandlers(s.w, wallet, a.accounts[0], rdns);
        BindingFrame(s.w, ClearWalletConnect(s.w));
      }
    case InjectedClear(wallet, rdns, account) => InstallMovesHandlers(s.w, wallet, account, rdns);
    case _ =>
  }

  lemma HandlersAttempt(s: System, id: nat, op: Op, a: Answer)
    requires op.IsAttempt() && HandlersFollowProvider(s.w)
    ensures HandlersFollowProvider(ResumeAttempt(s, id, op, a).w)
  {
    var w' := ResumeAttempt(s, id, op, a).w;
    if SameBinding(s.w, w') {
      BindingFrame(s.w, w');
    } else {
      InstallMovesHandlers(s.w, op.wc, a.accounts[0], "");
    }
  }

  lemma HandlersSilent(s: System, id: nat, op: Op, a: Answer)
    requires op.IsSilent() && HandlersFollowProvider(s.w)
    ensures HandlersFollowProvider(ResumeSilent(s, id, op, a).w)
  {
    var w' := ResumeSilent(s, id, op, a).w;
    if SameBinding(s.w, w') {
      BindingFrame(s.w, w');
    } else {
      InstallMovesHandlers(s.w, if op.SilentMatch? then op.wallet else op.wc, a.accounts[0], "");
    }
  }

  lemma {:induction false} HandlersEvent(w: Wallet, p: ProviderId, accounts: seq<string>)
    requires HandlersFollowProvider(w)
    ensures HandlersFollowProvider(DeliverAccounts(w, accounts, HandlersOf(w, p).accounts))
    ensures HandlersFollowProvider(DeliverChain(w, HandlersOf(w, p).chain))
    ensures HandlersFollowProvider(DeliverDisconnect(w, HandlersOf(w, p).disconnect))
  {
    var h := HandlersOf(w, p);
    assert h == if w.provider == Some(p) then BOUND else CLEAN;
    if h == BOUND {
      assert DeliverAccounts(w, accounts, 1) == AccountsChanged(w, accounts);
      assert DeliverChain(w, 1) == Emit(w);
      assert DeliverDisconnect(w, 1) == Logout(w);
      LogoutClearsHandlers(w.(address := None));
      LogoutClearsHandlers(w);
      BindingFrame(w, Emit(w));
      if SameBinding(w, AccountsChanged(w, accounts)) {
        BindingFrame(w, AccountsChanged(w, accounts));
      }
    }
  }

  lemma HandlersStep(s: System, e: Event)
    requires HandlersFollowProvider(s.w)
    ensures HandlersFollowProvider(Next(s, e).w)
  {
    match e
    case Disconnect => LogoutClearsHandlers(s.w);
    case AccountsEvent(p, accounts) => HandlersEvent(s.w, p, accounts);
    case ChainEvent(p) => HandlersEvent(s.w, p, []);
    case DisconnectEvent(p) => HandlersEvent(s.w, p, []);
    case Resume(id, a) =>
      if id in s.ops {
        if s.ops[id].IsAttempt() {
          HandlersAttempt(s, id, s.ops[id], a);
        } else if s.ops[id].IsSilent() {
          HandlersSilent(s, id, s.ops[id], a);
        } else {
          HandlersInjected(s, id, s.ops[id], a);
        }
      }
    case Rebind =>
      if s.w.provider.Some? {
        assert HandlersOf(s.w, s.w.provider.value) == BOUND;
        BindingFrame(s.w, Next(s, e).w);
      }
    case _ => BindingFrame(s.w, Next(s, e).w);
  }

  // ----- addresses -----

  /** A segment tells its listeners at most once, and only what is then the case. */
  predicate TellsTruth(w: Wallet, w': Wallet) {
    w'.emitted == w.emitted || w'.emitted == w.emitted + [Snapshot(w'.address, w'.provider)]
  }

  lemma AddressFrame(s: System, s': System)
    requires AddressesReported(s) && TellsTruth(s.w, s'.w) && s.reports <= s'.reports
    requires Reportable(s'.w.address, s'.w.provider, s'.reports)
    requires forall id :: id in s'.ops && s'.ops[id].InjectedClear? && !(id in s.ops && s.ops[id] == s'.ops[id]) ==>
               (s'.ops[id].wallet, s'.ops[id].account) in s'.reports
    ensures AddressesReported(s')
  {
  }

  lemma ReportedHasFirst(s: System, p: ProviderId, accounts: seq<string>)
    requires |accounts| > 0
    ensures (p, accounts[0]) in Reported(s, p, accounts).reports
  {
  }

  lemma AddressInjected(s: System, id: nat, a: Answer)
    requires id in s.ops && AddressesReported(s)
    ensures AddressesReported(ResumeInjected(s, id, s.ops[id], a))
  {
    if s.ops[id].InjectedRequest? && |a.accounts| > 0 {
      ReportedHasFirst(s, s.ops[id].wallet, a.accounts);
    }
    AddressFrame(s, ResumeInjected(s, id, s.ops[id], a));
  }

  lemma AddressCommit(s: System, id: nat, gen: nat, wc: ProviderId, accounts: seq<string>)
    requires AddressesReported(s) && |accounts| > 0
    ensures AddressesReported(CommitAttempt(Reported(s, wc, accounts), id, gen, wc, accounts[0]))
  {
    ReportedHasFirst(s, wc, accounts);
    AddressFrame(s, CommitAttempt(Reported(s, wc, accounts), id, gen, wc, accounts[0]));
  }

  lemma AddressAttempt(s: System, id: nat, a: Answer)
    requires id in s.ops && s.ops[id].IsAttempt() && AddressesReported(s)
    ensures AddressesReported(ResumeAttempt(s, id, s.ops[id], a))
  {
    var op := s.ops[id];
    var s' := ResumeAttempt(s, id, op, a);
    if id in s'.ops && s'.ops[id].AttemptMonad? {
      AddressCommit(s, id, op.gen, op.wc, a.accounts);
    } else {
      assert s'.reports == s.reports && s'.w.emitted == s.w.emitted;
      AddressFrame(s, s');
    }
  }

  lemma AddressSilent(s: System, id: nat, a: Answer)
    requires id in s.ops && s.ops[id].IsSilent() && AddressesReported(s)
    ensures AddressesReported(ResumeSilent(s, id, s.ops[id], a))
  {
    var op := s.ops[id];
    if |a.accounts| > 0 && (op.SilentGot? || op.SilentAccounts? || op.SilentMatch?) {
      ReportedHasFirst(s, if op.SilentMatch? then op.wallet else op.wc, a.accounts);
    }
    AddressFrame(s, ResumeSilent(s, id, op, a));
  }

  lemma AddressEvent(s: System, e: Event)
    requires e.AccountsEvent? || e.ChainEvent? || e.DisconnectEvent?
    requires HandlersFollowProvider(s.w) && AddressesReported(s)
    ensures AddressesReported(Next(s, e))
  {
    var w := s.w;
    assert HandlersOf(w, e.provider) == if w.provider == Some(e.provider) then BOUND else CLEAN;
    assert DeliverChain(w, 1) == Emit(w);
    assert DeliverDisconnect(w, 1) == Logout(w);
    if e.AccountsEvent? {
      assert DeliverAccounts(w, e.accounts, 1) == AccountsChanged(w, e.accounts);
      if |e.accounts| > 0 {
        ReportedHasFirst(s, e.provider, e.accounts);
      }
    }
    AddressFrame(s, Next(s, e));
  }

  lemma AddressStep(s: System, e: Event)
    requires HandlersFollowProvider(s.w) && AddressesReported(s)
    ensures AddressesReported(Next(s, e))
  {
    match e
    case Resume(id, a) =>
      if id in s.ops {
        if s.ops[id].IsAttempt() {
          AddressAttempt(s, id, a);
        } else if s.ops[id].IsSilent() {
          AddressSilent(s, id, a);
        } else {
          AddressInjected(s, id, a);
        }
      }
    case AccountsEvent(_, _) => AddressEvent(s, e);
    case ChainEvent(_) => AddressEvent(s, e);
    case DisconnectEvent(_) => AddressEvent(s, e);
    case _ => AddressFrame(s, Next(s, e));
  }

  // ----- attempts -----

  /** Moving an attempt on, or any other call, leaves the order of attempts alone. */
  lemma AttemptsFrame(s: System, s': System, id: nat)
    requires AttemptsOrdered(s) && id in s.ops && s'.nextId == s.nextId
    requires s'.w.generation == s.w.generation && s'.w.locked == s.w.locked
    requires s'.ops.Keys == s.ops.Keys && s'.ops[id].IsAttempt() == s.ops[id].IsAttempt()
    requires s.ops[id].IsAttempt() ==> s'.ops[id].gen == s.ops[id].gen
    requires forall i :: i in s.ops && i != id ==> s'.ops[i] == s.ops[i]
    ensures AttemptsOrdered(s')
  {
    forall i ensures Current(s', i) == Current(s, i) {
    }
  }

  lemma AttemptsFinish(s: System, id: nat)
    requires AttemptsOrdered(s) && id in s.ops
    ensures s.ops[id].IsAttempt() ==> AttemptsOrdered(FinishAttempt(s, id, s.ops[id].gen))
    ensures !s.ops[id].IsAttempt() ==> AttemptsOrdered(Finish(s, id))
  {
    var s' := if s.ops[id].IsAttempt() then FinishAttempt(s, id, s.ops[id].gen) else Finish(s, id);
    forall i ensures Current(s', i) == (Current(s, i) && i != id) {
    }
    if s'.w.locked {
      var i :| Current(s, i);
      assert Current(s', i);
    }
    forall i | Current(s', i) ensures s'.w.locked {
      assert Current(s, i);
    }
  }

  lemma AttemptsStart(s: System, op: Op)
    requires AttemptsOrdered(s) && !op.IsAttempt()
    ensures AttemptsOrdered(Start(s, op))
  {
    var s' := Start(s, op);
    forall i ensures Current(s', i) == Current(s, i) {
    }
  }

  lemma AttemptsBegin(s: System, session: bool)
    requires AttemptsOrdered(s)
    ensures AttemptsOrdered(BeginWalletConnect(s, session))
    ensures !s.w.locked ==> Current(BeginWalletConnect(s, session), s.nextId)
  {
    if !s.w.locked {
      assert Current(BeginWalletConnect(s, session), s.nextId);
    }
  }

  lemma AttemptsResume(s: System, id: nat, a: Answer)
    requires AttemptsOrdered(s)
    ensures AttemptsOrdered(ResumeOp(s, id, a))
  {
    if id in s.ops {
      var s' := ResumeOp(s, id, a);
      ResumeShape(s, id, a);
      if id in s'.ops {
        AttemptsFrame(s, s', id);
      } else {
        AttemptsFinish(s, id);
        SameOrder(if s.ops[id].IsAttempt() then FinishAttempt(s, id, s.ops[id].gen) else Finish(s, id), s');
      }
    }
  }

  lemma AttemptsStep(s: System, e: Event)
    requires AttemptsOrdered(s)
    ensures AttemptsOrdered(Next(s, e))
  {
    var s' := Next(s, e);
    match e
    case StartWalletConnect(session) => AttemptsBegin(s, session);
    case StartInjected(None, rdns) => AttemptsStart(s, InjectedDiscover(rdns));
    case StartInjected(Some(wallet), rdns) => AttemptsStart(s, InjectedRequest(wallet, rdns));
    case StartSilent =>
      if s.w.kind.Some? {
        AttemptsStart(s, s'.ops[s.nextId]);
      }
    case AbortWalletConnect(session) =>
      forall i ensures !Current(s', i) {
      }
    case Resume(id, a) => AttemptsResume(s, id, a);
    case Reject(id) =>
      if id in s.ops && s.ops[id].CanReject() {
        AttemptsFinish(s, id);
      }
    case AccountsEvent(p, accounts) =>
      DeliveryKeepsAttempts(s.w, p, accounts);
      SameOrder(s, s');
    case ChainEvent(p) =>
      DeliveryKeepsAttempts(s.w, p, []);
      SameOrder(s, s');
    case DisconnectEvent(p) =>
      DeliveryKeepsAttempts(s.w, p, []);
      SameOrder(s, s');
    case _ => SameOrder(s, s');
  }

  lemma SameOrder(s: System, s': System)
    requires AttemptsOrdered(s) && s'.ops == s.ops && s'.nextId == s.nextId
    requires s'.w.generation == s.w.generation && s'.w.locked == s.w.locked
    ensures AttemptsOrdered(s')
  {
    forall i ensures Current(s', i) == Current(s, i) {
    }
  }

  lemma {:induction false} AccountsKeepAttempts(w: Wallet, accounts: seq<string>, n: nat)
    ensures DeliverAccounts(w, accounts, n).generation == w.generation
    ensures DeliverAccounts(w, accounts, n).locked == w.locked
    decreases n
  {
    if n > 0 {
      AccountsKeepAttempts(AccountsChanged(w, accounts), accounts, n - 1);
    }
  }

  lemma {:induction false} ChainKeepsAttempts(w: Wallet, n: nat)
    ensures DeliverChain(w, n).generation == w.generation && DeliverChain(w, n).locked == w.locked
    decreases n
  {
    if n > 0 {
      ChainKeepsAttempts(Emit(w), n - 1);
    }
  }

  lemma {:induction false} DisconnectKeepsAttempts(w: Wallet, n: nat)
    ensures DeliverDisconnect(w, n).generation == w.generation && DeliverDisconnect(w, n).locked == w.locked
    decreases n
  {
    if n > 0 {
      DisconnectKeepsAttempts(Logout(w), n - 1);
    }
  }

  lemma {:induction false} DeliveryKeepsAttempts(w: Wallet, p: ProviderId, accounts: seq<string>)
    ensures var w' := DeliverAccounts(w, accounts, HandlersOf(w, p).accounts);
            w'.generation == w.generation && w'.locked == w.locked
    ensures var w' := DeliverChain(w, HandlersOf(w, p).chain);
            w'.generation == w.generation && w'.locked == w.locked
    ensures var w' := DeliverDisconnect(w, HandlersOf(w, p).disconnect);
            w'.generation == w.generation && w'.locked == w.locked
  {
    AccountsKeepAttempts(w, accounts, HandlersOf(w, p).accounts);
    ChainKeepsAttempts(w, HandlersOf(w, p).chain);
    DisconnectKeepsAttempts(w, HandlersOf(w, p).disconnect);
  }

  /** A call that resumes either waits again under the same generation or ends; only an attempt that
      ends may touch the lock. */
  lemma ResumeShape(s: System, id: nat, a: Answer)
    requires id in s.ops
    ensures var s' := ResumeOp(s, id, a);
            && s'.nextId == s.nextId && s'.w.generation == s.w.generation
            && (id in s'.ops ==>
                  && s'.w.locked == s.w.locked && s'.ops == s.ops[id := s'.ops[id]]
                  && s'.ops[id].IsAttempt() == s.ops[id].IsAttempt()
                  && (s.ops[id].IsAttempt() ==> s'.ops[id].gen == s.ops[id].gen))
            && (id !in s'.ops ==>
                  && s'.ops == s.ops - {id}
                  && s'.w.locked == if s.ops[id].IsAttempt() then EndAttempt(s.w, s.ops[id].gen).locked else s.w.locked)
  {
    var op := s.ops[id];
    if op.IsAttempt() {
      AttemptShape(s, id, a);
    } else if op.IsSilent() {
      SilentShape(s, id, a);
    }
  }

  /** What the shape of a resumed attempt is: it waits again, or ends. */
  predicate AttemptGoesOn(s: System, s': System, id: nat)
    requires id in s.ops && s.ops[id].IsAttempt()
  {
    && s'.nextId == s.nextId && s'.w.generation == s.w.generation
    && (id in s'.ops ==>
          && s'.w.locked == s.w.locked && s'.ops == s.ops[id := s'.ops[id]]
          && s'.ops[id].IsAttempt() && s'.ops[id].gen == s.ops[id].gen)
    && (id !in s'.ops ==>
          s'.ops == s.ops - {id} && s'.w.locked == EndAttempt(s.w, s.ops[id].gen).locked)
  }

  lemma PairedShape(s: System, id: nat, wc: ProviderId, a: Answer)
    requires id in s.ops && s.ops[id].IsAttempt()
    ensures AttemptGoesOn(s, Paired(s, id, s.ops[id].gen, wc, a), id)
  {
  }

  lemma AttemptShape(s: System, id: nat, a: Answer)
    requires id in s.ops && s.ops[id].IsAttempt()
    ensures AttemptGoesOn(s, ResumeAttempt(s, id, s.ops[id], a), id)
  {
    match s.ops[id]
    case AttemptGot(gen, wc) => PairedShape(s, id, wc, a);
    case AttemptPairing(gen, wc) => PairedShape(s, id, wc, a);
    case AttemptAccounts(gen, wc) => PairedShape(s, id, wc, a);
    case _ =>
  }

  lemma SilentShape(s: System, id: nat, a: Answer)
    requires id in s.ops && s.ops[id].IsSilent()
    ensures var s' := ResumeSilent(s, id, s.ops[id], a);
            && s'.nextId == s.nextId && s'.w.generation == s.w.generation && s'.w.locked == s.w.locked
            && (id in s'.ops ==> s'.ops == s.ops[id := s'.ops[id]] && s'.ops[id].IsSilent())
            && (id !in s'.ops ==> s'.ops == s.ops - {id})
  {
  }

  // ----- whole runs -----

  lemma {:induction false} RunsStayConsistent(kind: Option<Connector>, rdns: Option<string>, es: seq<Event>)
    ensures Consistent(Run(Load(kind, rdns), es))
  {
    if es != [] {
      var before := es[..|es| - 1];
      RunsStayConsistent(kind, rdns, before);
      var s := Run(Load(kind, rdns), before);
      HandlersStep(s, es[|es| - 1]);
      AddressStep(s, es[|es| - 1]);
      AttemptsStep(s, es[|es| - 1]);
    }
  }

  /** Between segments of any run the bound provider is the current one; it carries one copy of each
      handler, and every other provider carries none. */
  lemma {:induction false} ListenersOnTheProviderOnly(kind: Option<Connector>, rdns: Option<string>, es: seq<Event>,
                                                      p: ProviderId)
    ensures var w := Run(Load(kind, rdns), es).w;
            && w.bound == w.provider
            && HandlersOf(w, p).flagged == (w.provider == Some(p))
            && HandlersOf(w, p).accounts == HandlersOf(w, p).chain == HandlersOf(w, p).disconnect
            && HandlersOf(w, p).accounts == if w.provider == Some(p) then 1 else 0
  {
    RunsStayConsistent(kind, rdns, es);
  }

  /** In any run an address is set exactly while a provider is, and that provider reported it; the
      same was true whenever a listener was told. */
  lemma {:induction false} AddressBelongsToProvider(kind: Option<Connector>, rdns: Option<string>, es: seq<Event>)
    ensures var s := Run(Load(kind, rdns), es);
            && (s.w.address.Some? <==> s.w.provider.Some?)
            && (s.w.provider.Some? ==> (s.w.provider.value, s.w.address.value) in s.reports)
            && forall i :: 0 <= i < |s.w.emitted| ==>
                 var shown := s.w.emitted[i];
                 && (shown.address.Some? <==> shown.provider.Some?)
                 && (shown.provider.Some? ==> (shown.provider.value, shown.address.value) in s.reports)
  {
    RunsStayConsistent(kind, rdns, es);
  }

  /** In any run the lock is held exactly while a current attempt is in flight, there is at most one
      such attempt, and once no attempt is left the lock is free. */
  lemma {:induction false} LockHeldByTheCurrentAttempt(kind: Option<Connector>, rdns: Option<string>, es: seq<Event>)
    ensures var s := Run(Load(kind, rdns), es);
            && (s.w.locked <==> exists id :: Current(s, id))
            && (forall i, j :: Current(s, i) && Current(s, j) ==> i == j)
            && ((forall id :: id in s.ops ==> !s.ops[id].IsAttempt()) ==> !s.w.locked)
  {
    RunsStayConsistent(kind, rdns, es);
  }
}
