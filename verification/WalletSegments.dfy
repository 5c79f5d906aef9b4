/** One segment of one call: that it depends on nothing else in flight, and what it means for the
    connection. */
module WalletSegments {
  import opened Wrappers
  import opened WalletState
  import opened WalletProtocol
  import opened WalletInvariants
  import opened WalletStaleness
  import opened WalletReload

  /** What a resumed call does to the wallet, and where it waits next, if it does. */
  function Segment(w: Wallet, op: Op, a: Answer): (Wallet, Option<Op>) {
    var s := ResumeOp(System(w, map[0 := op], 1, {}, None), 0, a);
    (s.w, if 0 in s.ops then Some(s.ops[0]) else None)
  }

  /** The same for the first stretch of a call. */
  function FirstSegment(w: Wallet, e: Event): (Wallet, Option<Op>) {
    var s := Next(System(w, map[], 0, {}, None), e);
    (s.w, if 0 in s.ops then Some(s.ops[0]) else None)
  }

  /** A segment depends on nothing but the wallet, its own call and the answer: in every system, with
      whatever else in flight, the call does what Segment says and leaves the other calls alone. */
  lemma SegmentIsLocal(s: System, id: nat, a: Answer)
    requires id in s.ops
    ensures var (w, next) := Segment(s.w, s.ops[id], a);
            var s' := ResumeOp(s, id, a);
            && s'.w == w && s'.nextId == s.nextId
            && s'.ops == if next.Some? then s.ops[id := next.value] else s.ops - {id}
  {
    ResumeShape(s, id, a);
    var op := s.ops[id];
    if op.IsAttempt() {
      AttemptIsLocal(s, id, a);
    } else if op.IsSilent() {
      SilentIsLocal(s, id, a);
    }
  }

  lemma AttemptIsLocal(s: System, id: nat, a: Answer)
    requires id in s.ops && s.ops[id].IsAttempt()
    ensures var s' := ResumeAttempt(s, id, s.ops[id], a);
            && s'.w == Segment(s.w, s.ops[id], a).0
            && Segment(s.w, s.ops[id], a).1 == (if id in s'.ops then Some(s'.ops[id]) else None)
  {
  }

  lemma SilentIsLocal(s: System, id: nat, a: Answer)
    requires id in s.ops && s.ops[id].IsSilent()
    ensures var s' := ResumeSilent(s, id, s.ops[id], a);
            && s'.w == Segment(s.w, s.ops[id], a).0
            && Segment(s.w, s.ops[id], a).1 == (if id in s'.ops then Some(s'.ops[id]) else None)
  {
  }

  lemma StartIsLocal(s: System, e: Event)
    requires e.StartInjected? || e.StartWalletConnect? || e.StartSilent?
    ensures var (w, next) := FirstSegment(s.w, e);
            && Next(s, e).w == w
            && Next(s, e).ops == (if next.Some? then s.ops[s.nextId := next.value] else s.ops)
            && Next(s, e).nextId == s.nextId + if next.Some? then 1 else 0
  {
  }

  // ----- what the synchronous stretches mean -----

  /** Binding moves the handlers from whichever provider has them, and binding again changes nothing. */
  lemma BindingIsHandedOver(w: Wallet, q: ProviderId)
    requires HandlersOnlyOn(w, w.bound)
    ensures HandlersOnlyOn(Bind(w, q), Some(q))
    ensures Bind(Bind(w, q), q) == Bind(w, q)
  {
    forall p: ProviderId ensures HandlersOf(Bind(w, q), p) == if p == q then BOUND else CLEAN {
      assert HandlersOf(w, p) == if w.bound == Some(p) then BOUND else CLEAN;
      assert HandlersOf(w, q) == if w.bound == Some(q) then BOUND else CLEAN;
    }
    assert HandlersOf(Bind(w, q), q).flagged;
  }

  /** A logout leaves no handler anywhere, nothing to show and nothing to restore; it says so once, and
      leaves an attempt in flight alone. A second logout only says so again. */
  lemma LogoutLeavesNothing(w: Wallet)
    requires HandlersFollowProvider(w)
    ensures HandlersOnlyOn(Logout(w), None)
    ensures var w' := Logout(w);
            && w'.address.None? && w'.provider.None? && w'.walletConnect.None? && w'.kind.None? && w'.rdns.None?
            && w'.emitted == w.emitted + [Snapshot(None, None)]
            && w'.generation == w.generation && w'.locked == w.locked
            && Logout(w') == Emit(w')
  {
    LogoutClearsHandlers(w);
  }

  predicate Usable(accounts: seq<string>) {
    |accounts| > 0 && accounts[0] != ""
  }

  /** The current provider reports accounts: the client follows the first one under the same provider and
      the same stored kind, or it is logged out; listeners are told once, and told what is then the case. */
  lemma AccountsAreFollowed(w: Wallet, accounts: seq<string>)
    requires HandlersFollowProvider(w) && w.provider.Some?
    ensures var w' := AccountsChanged(w, accounts);
            && w'.emitted == w.emitted + [Snapshot(w'.address, w'.provider)]
            && (if Usable(accounts) then
                  && w'.address == Some(accounts[0]) && w'.provider == w.provider && HandlersFollowProvider(w')
                  && w'.rdns == w.rdns && (w.kind.Some? ==> w'.kind == w.kind)
                  && (w.kind.None? ==> (w'.kind == Some(WalletConnect) <==> w.walletConnect == w.provider))
                else
                  w'.address.None? && w'.provider.None? && w'.kind.None? && w'.rdns.None? && HandlersOnlyOn(w', None))
  {
    if Usable(accounts) {
      BindingFrame(w, AccountsChanged(w, accounts));
    } else {
      LogoutClearsHandlers(w.(address := None));
    }
  }

  // ----- what the segments mean -----

  /** The client is connected to this provider and account, and listeners have just been told so. */
  ghost predicate ConnectedTo(w: Wallet, p: ProviderId, account: string) {
    && w.provider == Some(p) && w.address == Some(account) && HandlersOnlyOn(w, Some(p))
    && w.emitted != [] && w.emitted[|w.emitted| - 1] == Snapshot(Some(account), Some(p))
  }

  predicate SameAttempts(w: Wallet, w': Wallet) {
    w'.generation == w.generation && w'.locked == w.locked
  }

  /** Connected, under these keys, with attempts in flight left alone. */
  ghost predicate ConnectedUnder(w: Wallet, w': Wallet, p: ProviderId, account: string, kind: Option<Connector>,
                                 rdns: Option<string>) {
    ConnectedTo(w', p, account) && w'.kind == kind && w'.rdns == rdns && SameAttempts(w, w')
  }

  lemma InstallConnects(w: Wallet, p: ProviderId, account: string, rdns: string)
    requires HandlersFollowProvider(w)
    ensures ConnectedUnder(w, InstallInjected(w, p, account, rdns), p, account, Some(Injected), Some(rdns))
    ensures ConnectedUnder(w, InstallWalletConnect(w, p, account), p, account, Some(WalletConnect), None)
    ensures ConnectedUnder(w, InstallSilently(w, p, account), p, account, w.kind, w.rdns)
  {
    InstallMovesHandlers(w, p, account, rdns);
  }

  /** The injected connect has its account, and no other WalletConnect provider has to be dropped first. */
  predicate InjectedMayConnect(w: Wallet, op: Op, a: Answer) {
    op.InjectedClear? ||
    (op.InjectedRequest? && |a.accounts| > 0 && (w.walletConnect.None? || w.walletConnect == Some(op.wallet)))
  }

  lemma InjectedConnects(w: Wallet, op: Op, a: Answer)
    requires InjectedMayConnect(w, op, a)
    ensures var account := if op.InjectedClear? then op.account else a.accounts[0];
            Segment(w, op, a) == (InstallInjected(w, op.wallet, account, op.rdns), Some(InjectedMonad))
  {
  }

  lemma InjectedStays(w: Wallet, op: Op, a: Answer)
    requires !op.IsAttempt() && !op.IsSilent() && !InjectedMayConnect(w, op, a)
    ensures var (w', next) := Segment(w, op, a);
            SameConnection(w, w') && SameAttempts(w, w') && next != Some(InjectedMonad)
  {
  }

  /** A segment of an injected connect connects exactly if it has its account and no other WalletConnect
      provider is left to be dropped first; otherwise the connection stays as it is. */
  lemma InjectedConnectsExactlyIf(w: Wallet, op: Op, a: Answer)
    requires HandlersFollowProvider(w) && !op.IsAttempt() && !op.IsSilent()
    ensures var (w', next) := Segment(w, op, a);
            && (next == Some(InjectedMonad) <==> InjectedMayConnect(w, op, a))
            && (if InjectedMayConnect(w, op, a) then
                  ConnectedUnder(w, w', op.wallet, if op.InjectedClear? then op.account else a.accounts[0],
                                 Some(Injected), Some(op.rdns))
                else
                  SameConnection(w, w') && SameAttempts(w, w'))
  {
    if InjectedMayConnect(w, op, a) {
      InjectedConnects(w, op, a);
      InstallConnects(w, op.wallet, if op.InjectedClear? then op.account else a.accounts[0], op.rdns);
    } else {
      InjectedStays(w, op, a);
    }
  }

  /** The attempt has accounts to connect with and nothing in its way. */
  predicate AttemptMayConnect(w: Wallet, op: Op, a: Answer)
    requires op.IsAttempt()
  {
    |a.accounts| > 0 &&
    (op.AttemptAccounts? || (op.gen == w.generation && (op.AttemptPairing? || (op.AttemptGot? && a.session))))
  }

  lemma AttemptConnects(w: Wallet, op: Op, a: Answer)
    requires op.IsAttempt() && AttemptMayConnect(w, op, a)
    ensures Segment(w, op, a) == (InstallWalletConnect(w, op.wc, a.accounts[0]), Some(AttemptMonad(op.gen)))
  {
  }

  lemma AttemptStays(w: Wallet, op: Op, a: Answer)
    requires op.IsAttempt() && !AttemptMayConnect(w, op, a)
    ensures var (w', next) := Segment(w, op, a);
            && SameConnection(w, w') && w'.generation == w.generation
            && w'.locked == (w.locked && !(next.None? && op.gen == w.generation))
            && (next.Some? ==> next.value.IsAttempt() && !next.value.AttemptMonad? && next.value.gen == op.gen)
  {
  }

  /** A segment of a WalletConnect attempt connects exactly if it has accounts and is current, or has
      passed its last check; otherwise the connection stays as it is. It never changes the generation, and
      the lock is released exactly by an attempt that ends while it is current. */
  lemma AttemptConnectsExactlyIf(w: Wallet, op: Op, a: Answer)
    requires HandlersFollowProvider(w) && op.IsAttempt()
    ensures var (w', next) := Segment(w, op, a);
            && (next == Some(AttemptMonad(op.gen)) <==> AttemptMayConnect(w, op, a))
            && (if AttemptMayConnect(w, op, a) then
                  ConnectedUnder(w, w', op.wc, a.accounts[0], Some(WalletConnect), None)
                else
                  && SameConnection(w, w') && w'.generation == w.generation
                  && w'.locked == (w.locked && !(next.None? && op.gen == w.generation))
                  && (next.Some? ==> next.value.IsAttempt() && next.value.gen == op.gen))
  {
    if AttemptMayConnect(w, op, a) {
      AttemptConnects(w, op, a);
      InstallConnects(w, op.wc, a.accounts[0], "");
    } else {
      AttemptStays(w, op, a);
    }
  }

  predicate SilentMayConnect(op: Op, a: Answer) {
    |a.accounts| > 0 && ((op.SilentGot? && a.session) || op.SilentAccounts? || op.SilentMatch?)
  }

  lemma SilentConnects(w: Wallet, op: Op, a: Answer)
    requires op.IsSilent() && SilentMayConnect(op, a)
    ensures Segment(w, op, a) == (InstallSilently(w, if op.SilentMatch? then op.wallet else op.wc, a.accounts[0]), None)
  {
  }

  lemma SilentStays(w: Wallet, op: Op, a: Answer)
    requires op.IsSilent() && !SilentMayConnect(op, a)
    ensures var w' := Segment(w, op, a).0;
            && SameAttempts(w, w') && SameConnection(w, w'.(kind := w.kind, rdns := w.rdns))
            && (w'.kind.None? || w'.kind == w.kind) && (w'.rdns.None? || w'.rdns == w.rdns)
  {
  }

  /** A segment of a silent reconnect connects exactly if it has accounts, and then leaves the keys as
      they are; otherwise the connection stays as it is, and keys are kept or dropped, never set. */
  lemma SilentConnectsExactlyIf(w: Wallet, op: Op, a: Answer)
    requires HandlersFollowProvider(w) && op.IsSilent()
    ensures var (w', next) := Segment(w, op, a);
            && (if SilentMayConnect(op, a) then
                  && ConnectedUnder(w, w', if op.SilentMatch? then op.wallet else op.wc, a.accounts[0], w.kind, w.rdns)
                  && next.None?
                else
                  && SameAttempts(w, w') && SameConnection(w, w'.(kind := w.kind, rdns := w.rdns))
                  && (w'.kind.None? || w'.kind == w.kind) && (w'.rdns.None? || w'.rdns == w.rdns))
  {
    if SilentMayConnect(op, a) {
      SilentConnects(w, op, a);
      InstallConnects(w, if op.SilentMatch? then op.wallet else op.wc, a.accounts[0], "");
    } else {
      SilentStays(w, op, a);
    }
  }

  /** Looking for the stored wallet among the announced ones: it goes on with a wallet announced under the
      stored rdns, or both keys are dropped because none was. */
  lemma DiscoveryMatchesExactlyIf(w: Wallet, a: Answer)
    ensures var (w', next) := Segment(w, SilentDiscover, a);
            var stored := w.rdns.Some? && w.rdns.value != "" && exists x :: x in a.found && x.rdns == w.rdns.value;
            && (next.Some? <==> stored)
            && (next.Some? ==>
                  w' == w && next.value.SilentMatch? && Announced(w.rdns.value, next.value.wallet) in a.found)
            && (next.None? ==> w' == w.(kind := None, rdns := None))
  {
    if w.rdns.Some? {
      MatchIsAnnounced(a.found, w.rdns.value);
    }
  }

  /** A start is refused exactly if the lock is held; otherwise it holds the lock under a new generation,
      which is its own, and the connection stays as it is. */
  lemma StartTakesTheLock(w: Wallet, session: bool)
    ensures var (w', next) := FirstSegment(w, StartWalletConnect(session));
            && (next.None? <==> w.locked)
            && (next.None? ==> w' == w)
            && (next.Some? ==>
                  && w'.locked && w'.generation > w.generation && SameConnection(w, w')
                  && next.value.IsAttempt() && next.value.Unchecked() && next.value.gen == w'.generation)
  {
  }

  // ----- connecting, over whole runs -----

  predicate MayConnect(w: Wallet, op: Op, a: Answer) {
    if op.IsAttempt() then AttemptMayConnect(w, op, a)
    else if op.IsSilent() then SilentMayConnect(op, a)
    else InjectedMayConnect(w, op, a)
  }

  /** The event resumes a call that has what it needs to connect. */
  predicate Connects(s: System, e: Event) {
    e.Resume? && e.id in s.ops && MayConnect(s.w, s.ops[e.id], e.answer)
  }

  function TargetOf(op: Op): ProviderId
    requires op.InjectedRequest? || op.InjectedClear? || op.SilentMatch? ||
             op.AttemptGot? || op.AttemptPairing? || op.AttemptAccounts? || op.SilentGot? || op.SilentAccounts?
  {
    if op.InjectedRequest? || op.InjectedClear? || op.SilentMatch? then op.wallet else op.wc
  }

  function AccountOf(op: Op, a: Answer): string
    requires op.InjectedClear? || |a.accounts| > 0
  {
    if op.InjectedClear? then op.account else a.accounts[0]
  }

  /** The current provider has reported these accounts, and they can be followed. */
  predicate Follows(s: System, e: Event) {
    e.AccountsEvent? && s.w.provider == Some(e.provider) && Usable(e.accounts)
  }

  lemma ResumeConnectsExactlyIf(s: System, id: nat, a: Answer)
    requires HandlersFollowProvider(s.w) && id in s.ops
    ensures var op := s.ops[id];
            var t := ResumeOp(s, id, a);
            if MayConnect(s.w, op, a) then
              ConnectedTo(t.w, TargetOf(op), AccountOf(op, a))
            else
              t.w.provider == s.w.provider && t.w.address == s.w.address
  {
    var op := s.ops[id];
    SegmentIsLocal(s, id, a);
    if op.IsAttempt() {
      AttemptConnectsExactlyIf(s.w, op, a);
    } else if op.IsSilent() {
      SilentConnectsExactlyIf(s.w, op, a);
    } else {
      InjectedConnectsExactlyIf(s.w, op, a);
    }
  }

  lemma EventFollowsOrLeaves(s: System, e: Event)
    requires HandlersFollowProvider(s.w) && (e.AccountsEvent? || e.ChainEvent? || e.DisconnectEvent?)
    ensures var t := Next(s, e);
            if Follows(s, e) then
              t.w.provider == s.w.provider && t.w.address == Some(e.accounts[0])
            else
              (t.w.provider == s.w.provider && t.w.address == s.w.address) ||
              (t.w.provider.None? && t.w.address.None?)
  {
    var w := s.w;
    assert HandlersOf(w, e.provider) == if w.provider == Some(e.provider) then BOUND else CLEAN;
    assert DeliverChain(w, 1) == Emit(w);
    assert DeliverDisconnect(w, 1) == Logout(w);
    if e.AccountsEvent? {
      assert DeliverAccounts(w, e.accounts, 1) == AccountsChanged(w, e.accounts);
    }
  }

  /** In every run, a provider and account come to be shown only by a call that has what it needs to
      connect, which then also has its handlers in place and listeners told, and the account changes
      otherwise only to one that this provider has just reported; every other event leaves both as they are
      or takes both away. */
  lemma RunsConnectExactlyIf(kind: Option<Connector>, rdns: Option<string>, es: seq<Event>, k: nat)
    requires k < |es|
    ensures var s, t := Before(Load(kind, rdns), es, k), Before(Load(kind, rdns), es, k + 1);
            if Connects(s, es[k]) then
              ConnectedTo(t.w, TargetOf(s.ops[es[k].id]), AccountOf(s.ops[es[k].id], es[k].answer))
            else if Follows(s, es[k]) then
              t.w.provider == s.w.provider && t.w.address == Some(es[k].accounts[0])
            else
              (t.w.provider == s.w.provider && t.w.address == s.w.address) ||
              (t.w.provider.None? && t.w.address.None?)
  {
    var s := Before(Load(kind, rdns), es, k);
    RunsStayConsistent(kind, rdns, es[..k]);
    RunStep(Load(kind, rdns), es, k);
    match es[k]
    case Resume(id, a) =>
      if id in s.ops {
        ResumeConnectsExactlyIf(s, id, a);
      }
    case AccountsEvent(_, _) => EventFollowsOrLeaves(s, es[k]);
    case ChainEvent(_) => EventFollowsOrLeaves(s, es[k]);
    case DisconnectEvent(_) => EventFollowsOrLeaves(s, es[k]);
    case _ =>
  }
}
