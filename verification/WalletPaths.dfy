/** How the calls go on: what each of them does when it is answered, from its start to its end, and that it
    gets there. */
module WalletPaths {
  import opened Wrappers
  import opened WalletState
  import opened WalletProtocol
  import opened WalletInvariants
  import opened WalletStaleness
  import opened WalletReload
  import opened WalletSegments

  function Answered(s: System, id: nat, a: Answer): System {
    Next(s, Resume(id, a))
  }

  // ----- WalletConnect -----

  /** An attempt that is current ends only when it is done: with the chain asked for, or after it found no
      account. */
  lemma CurrentAttemptGoesOn(s: System, id: nat, a: Answer)
    requires Current(s, id) && id !in Answered(s, id, a).ops
    ensures s.ops[id].AttemptMonad? || s.ops[id].AttemptEmpty?
  {
  }

  /** And one that is not ends at its next check. */
  lemma StaleAttemptEnds(s: System, id: nat, a: Answer)
    requires id in s.ops && s.ops[id].IsAttempt() && !Current(s, id)
    requires s.ops[id].AttemptGot? || s.ops[id].AttemptPairing?
    ensures id !in Answered(s, id, a).ops && Answered(s, id, a).w == s.w
  {
  }

  /** The steps of a current attempt up to its provider. */
  lemma ProviderSteps(s: System, id: nat, a: Answer)
    requires id in s.ops
    ensures s.ops[id].AttemptLoad? ==>
              Answered(s, id, a) == s.(ops := s.ops[id := AttemptInit(s.ops[id].gen)])
    ensures s.ops[id].AttemptInit? ==>
              Answered(s, id, a) ==
              s.(w := s.w.(walletConnect := Some(a.created)), ops := s.ops[id := AttemptGot(s.ops[id].gen, a.created)])
    ensures s.ops[id].AttemptClear? && s.w.walletConnect.None? ==>
              Answered(s, id, a) == s.(ops := s.ops[id := AttemptLoad(s.ops[id].gen)])
    ensures s.ops[id].AttemptClear? && s.w.walletConnect.Some? ==>
              Answered(s, id, a) == s.(ops := s.ops[id := AttemptGot(s.ops[id].gen, s.w.walletConnect.value)])
  {
  }

  /** The first connect of a page: the package is loaded and the provider created; it has no session, so it
      is paired; its first account is then shown, and the call ends once the chain was asked for. */
  lemma FirstPairing(s: System, loaded: Answer, created: Answer, unpaired: Answer, paired: Answer, asked: Answer)
    requires !s.w.locked && s.w.walletConnect.None? && !unpaired.session && |paired.accounts| > 0
    ensures var id := s.nextId;
            var s3 := Answered(Answered(Next(s, StartWalletConnect(false)), id, loaded), id, created);
            var s4 := Answered(s3, id, unpaired);
            var s5 := Answered(s4, id, paired);
            var s6 := Answered(s5, id, asked);
            && id in s4.ops && s4.ops[id].AttemptPairing? && SameConnection(s.w, s4.w) && s4.w.locked
            && s5.w.provider == Some(created.created) && s5.w.address == Some(paired.accounts[0])
            && s5.w.kind == Some(WalletConnect) && s5.w.rdns.None? && s5.w.walletConnect == Some(created.created)
            && id in s5.ops && s5.w.locked
            && id !in s6.ops && !s6.w.locked && SameConnection(s5.w, s6.w)
  {
    var id := s.nextId;
    var s1 := Next(s, StartWalletConnect(false));
    assert id in s1.ops && s1.ops[id] == AttemptLoad(s1.w.generation);
    ProviderSteps(s1, id, loaded);
    var s2 := Answered(s1, id, loaded);
    ProviderSteps(s2, id, created);
    PairingSteps(Answered(s2, id, created), id, unpaired, paired, asked);
  }

  lemma PairingSteps(s: System, id: nat, unpaired: Answer, paired: Answer, asked: Answer)
    requires Current(s, id) && s.ops[id].AttemptGot? && s.w.locked && !unpaired.session && |paired.accounts| > 0
    ensures var s4 := Answered(s, id, unpaired);
            var s5 := Answered(s4, id, paired);
            var s6 := Answered(s5, id, asked);
            && s4 == s.(ops := s.ops[id := AttemptPairing(s.ops[id].gen, s.ops[id].wc)])
            && s5.w.provider == Some(s.ops[id].wc) && s5.w.address == Some(paired.accounts[0])
            && s5.w.kind == Some(WalletConnect) && s5.w.rdns.None? && s5.w.walletConnect == s.w.walletConnect
            && id in s5.ops && s5.w.locked
            && id !in s6.ops && !s6.w.locked && SameConnection(s5.w, s6.w)
  {
  }

  /** With a live session that shows accounts the first answer connects. */
  lemma LiveSessionConnects(s: System, live: Answer)
    requires !s.w.locked && s.w.walletConnect.Some? && live.session && |live.accounts| > 0
    ensures var t := Answered(Next(s, StartWalletConnect(true)), s.nextId, live);
            && t.w.provider == s.w.walletConnect && t.w.address == Some(live.accounts[0])
            && t.w.kind == Some(WalletConnect) && t.w.rdns.None? && s.nextId in t.ops && t.w.locked
  {
  }

  /** A provider whose session is gone is dropped first, and the call starts over without it. */
  lemma DeadProviderIsDropped(s: System, dropped: Answer)
    requires !s.w.locked && s.w.walletConnect.Some?
    ensures var s1 := Next(s, StartWalletConnect(false));
            var s2 := Answered(s1, s.nextId, dropped);
            && s1.w.walletConnect.None? && s.nextId in s1.ops && s1.ops[s.nextId].AttemptClear?
            && Current(s2, s.nextId) && s2.ops[s.nextId].AttemptLoad? && SameConnection(s.w, s2.w) && s2.w.locked
  {
    ProviderSteps(Next(s, StartWalletConnect(false)), s.nextId, dropped);
  }

  /** A session, or a pairing, that shows no account is asked for one; the answer connects. */
  lemma AccountsAreAskedFor(s: System, id: nat, silent: Answer, answer: Answer)
    requires Current(s, id) && |silent.accounts| == 0 && |answer.accounts| > 0
    requires s.ops[id].AttemptPairing? || (s.ops[id].AttemptGot? && silent.session)
    ensures var s1 := Answered(s, id, silent);
            var s2 := Answered(s1, id, answer);
            && s1 == s.(ops := s.ops[id := AttemptAccounts(s.ops[id].gen, s.ops[id].wc)])
            && s2.w.provider == Some(s.ops[id].wc) && s2.w.address == Some(answer.accounts[0])
            && s2.w.kind == Some(WalletConnect) && s2.w.rdns.None? && id in s2.ops
  {
  }

  /** If there is none, the provider is dropped, nothing else changes, and the call ends and frees the lock. */
  lemma NoAccountGivesUp(s: System, id: nat, none: Answer, dropped: Answer)
    requires Current(s, id) && s.ops[id].AttemptAccounts? && |none.accounts| == 0
    ensures var s1 := Answered(s, id, none);
            var s2 := Answered(s1, id, dropped);
            && s1.w == s.w.(walletConnect := None) && id in s1.ops
            && id !in s2.ops && s2.w == s1.w.(locked := false)
  {
  }

  /** An abort frees the lock, outdates the attempt and drops a provider without a session, and it touches
      nothing else. */
  lemma AbortExactly(s: System, session: bool)
    ensures Next(s, AbortWalletConnect(session)) ==
            s.(w := s.w.(generation := s.w.generation + 1, locked := false,
                         walletConnect := if session then s.w.walletConnect else None))
  {
  }

  /** A request that fails, or times out, ends its call; nothing else changes, but that a current attempt
      frees the lock. */
  lemma FailureEndsCall(s: System, id: nat)
    requires id in s.ops && s.ops[id].CanReject()
    ensures Next(s, Reject(id)) == s.(ops := s.ops - {id}, w := s.w.(locked := s.w.locked && !Current(s, id)))
  {
  }

  /** Everything can fail but dropping a provider and a promise that is already fulfilled. */
  lemma FailuresExactly(op: Op)
    ensures op.CanReject() <==>
            !(op.InjectedDiscover? || op.InjectedClear? || op.AttemptClear? || op.AttemptGot? || op.AttemptEmpty? ||
              op.SilentGot? || op.SilentClear? || op.SilentDiscover?)
  {
  }

  // ----- injected wallets -----

  /** An injected wallet is shown with this account, under these keys. */
  predicate ShowsInjected(w: Wallet, wallet: ProviderId, account: string, rdns: string) {
    w.provider == Some(wallet) && w.address == Some(account) && w.kind == Some(Injected) && w.rdns == Some(rdns)
  }

  /** A WalletConnect provider is live that would have to be dropped first. */
  predicate MustDrop(w: Wallet, wallet: ProviderId) {
    w.walletConnect.Some? && w.walletConnect != Some(wallet)
  }

  lemma RequestConnects(s: System, id: nat, answer: Answer)
    requires id in s.ops && s.ops[id].InjectedRequest? && |answer.accounts| > 0
    ensures var op, t := s.ops[id], Answered(s, id, answer);
            if MustDrop(s.w, op.wallet) then
              && t.w == s.w.(walletConnect := None)
              && t.ops == s.ops[id := InjectedClear(op.wallet, op.rdns, answer.accounts[0])]
            else
              ShowsInjected(t.w, op.wallet, answer.accounts[0], op.rdns) && t.ops == s.ops[id := InjectedMonad]
  {
  }

  lemma ClearConnects(s: System, id: nat, dropped: Answer)
    requires id in s.ops && s.ops[id].InjectedClear?
    ensures var op, t := s.ops[id], Answered(s, id, dropped);
            ShowsInjected(t.w, op.wallet, op.account, op.rdns) && t.ops == s.ops[id := InjectedMonad]
  {
  }

  lemma MonadEnds(s: System, id: nat, asked: Answer)
    requires id in s.ops && s.ops[id].InjectedMonad?
    ensures Answered(s, id, asked) == s.(ops := s.ops - {id})
  {
  }

  /** A connect to a given wallet shows the first account it reports, under the rdns it was given, and then
      asks for the chain and ends. */
  lemma InjectedPath(s: System, wallet: ProviderId, rdns: string, answer: Answer, asked: Answer)
    requires |answer.accounts| > 0 && !MustDrop(s.w, wallet)
    ensures var id := s.nextId;
            var t := Answered(Next(s, StartInjected(Some(wallet), rdns)), id, answer);
            var end := Answered(t, id, asked);
            && ShowsInjected(t.w, wallet, answer.accounts[0], rdns) && id in t.ops
            && id !in end.ops && end.w == t.w
  {
    var id := s.nextId;
    var s0 := Next(s, StartInjected(Some(wallet), rdns));
    assert s0.ops[id] == InjectedRequest(wallet, rdns) && s0.w == s.w;
    RequestConnects(s0, id, answer);
    MonadEnds(Answered(s0, id, answer), id, asked);
  }

  /** A live WalletConnect provider is dropped first. */
  lemma InjectedPathBehindWalletConnect(s: System, wallet: ProviderId, rdns: string, answer: Answer, dropped: Answer)
    requires |answer.accounts| > 0 && MustDrop(s.w, wallet)
    ensures var id := s.nextId;
            var s1 := Answered(Next(s, StartInjected(Some(wallet), rdns)), id, answer);
            var t := Answered(s1, id, dropped);
            && s1.w == s.w.(walletConnect := None)
            && ShowsInjected(t.w, wallet, answer.accounts[0], rdns) && id in t.ops && t.ops[id].InjectedMonad?
  {
    var id := s.nextId;
    var s0 := Next(s, StartInjected(Some(wallet), rdns));
    assert s0.ops[id] == InjectedRequest(wallet, rdns) && s0.w == s.w;
    RequestConnects(s0, id, answer);
    ClearConnects(Answered(s0, id, answer), id, dropped);
  }

  /** Without a given wallet it takes the first one announced, and ends if there is none. */
  lemma InjectedDiscovers(s: System, rdns: string, found: Answer)
    ensures var id := s.nextId;
            var s1 := Answered(Next(s, StartInjected(None, rdns)), id, found);
            && s1.w == s.w
            && (if |found.found| == 0 then id !in s1.ops
                else id in s1.ops && s1.ops[id] == InjectedRequest(found.found[0].provider, rdns))
  {
  }

  /** A wallet that reports no account is not connected. */
  lemma InjectedWithoutAccount(s: System, id: nat, none: Answer)
    requires id in s.ops && s.ops[id].InjectedRequest? && |none.accounts| == 0
    ensures Answered(s, id, none) == s.(ops := s.ops - {id})
  {
  }

  /** Whatever happens meanwhile, an injected connect shows the first account of the answer to its own
      request: at once, or when the other provider has been dropped. */
  lemma {:induction false} InjectedShowsItsFirstAccount(s: System, es: seq<Event>, id: nat, k: nat, j: nat, b: Answer)
    requires AttemptsOrdered(s) && id < s.nextId && k < j < |es| && es[k].Resume? && es[k].id == id
    requires id in Before(s, es, k).ops && Before(s, es, k).ops[id].InjectedRequest? && |es[k].answer.accounts| > 0
    requires forall m :: k < m < j ==> !IsStepOf(es[m], id)
    requires es[j] == Resume(id, b)
    ensures var op, w := Before(s, es, k).ops[id], Before(s, es, k).w;
            var shown := if MustDrop(w, op.wallet) then Before(s, es, j + 1) else Before(s, es, k + 1);
            ShowsInjected(shown.w, op.wallet, es[k].answer.accounts[0], op.rdns)
  {
    hide Next, ShowsInjected;
    RunStep(s, es, k);
    RequestConnects(Before(s, es, k), id, es[k].answer);
    if MustDrop(Before(s, es, k).w, Before(s, es, k).ops[id].wallet) {
      WaitsUnchanged(s, es, id, k + 1, j);
      RunStep(s, es, j);
      ClearConnects(Before(s, es, j), id, b);
    }
  }

  lemma {:induction false} WaitsUnchanged(s: System, es: seq<Event>, id: nat, k: nat, j: nat)
    requires AttemptsOrdered(s) && id < s.nextId && k <= j <= |es| && id in Before(s, es, k).ops
    requires forall m :: k <= m < j ==> !IsStepOf(es[m], id)
    ensures id in Before(s, es, j).ops && Before(s, es, j).ops[id] == Before(s, es, k).ops[id]
  {
    if k < j {
      WaitsUnchanged(s, es, id, k, j - 1);
      RunKeepsOrder(s, es, j - 1);
      IdsStayIssued(s, es, j - 1, id);
      RunStep(s, es, j - 1);
      OthersLeaveAlone(Before(s, es, j - 1), es[j - 1], id);
    }
  }

  // ----- silent reconnect -----

  /** Where a silent reconnect starts. */
  lemma SilentStarts(s: System)
    ensures s.w.kind.None? ==> Next(s, StartSilent) == s
    ensures s.w.kind == Some(Injected) ==> Next(s, StartSilent) == Start(s, SilentDiscover)
    ensures s.w.kind == Some(WalletConnect) && s.w.walletConnect.None? ==> Next(s, StartSilent) == Start(s, SilentLoad)
    ensures s.w.kind == Some(WalletConnect) && s.w.walletConnect.Some? ==>
              Next(s, StartSilent) == Start(s, SilentGot(s.w.walletConnect.value))
  {
  }

  /** A session that shows no account is asked for one, and the answer is restored. */
  lemma SilentAsksForAccounts(s: System, id: nat, live: Answer, answer: Answer)
    requires id in s.ops && s.ops[id].SilentGot? && live.session && |live.accounts| == 0 && |answer.accounts| > 0
    ensures var s1 := Answered(s, id, live);
            var s2 := Answered(s1, id, answer);
            && s1 == s.(ops := s.ops[id := SilentAccounts(s.ops[id].wc)])
            && s2.w.provider == Some(s.ops[id].wc) && s2.w.address == Some(answer.accounts[0])
            && s2.w.kind == s.w.kind && s2.w.rdns == s.w.rdns && id !in s2.ops
  {
  }

  /** Without a session, or without an account, the kind and the provider are dropped, and the call ends. */
  lemma SilentForgets(s: System, id: nat, answer: Answer, dropped: Answer)
    requires id in s.ops
    requires (s.ops[id].SilentGot? && !answer.session) || (s.ops[id].SilentAccounts? && |answer.accounts| == 0)
    ensures var s1 := Answered(s, id, answer);
            var s2 := Answered(s1, id, dropped);
            && s1.w == s.w.(kind := None, walletConnect := None) && id in s1.ops && id !in s2.ops && s2.w == s1.w
  {
  }

  /** An injected wallet that reports no account is not restored, and its keys are kept. */
  lemma SilentWithoutAccount(s: System, id: nat, none: Answer)
    requires id in s.ops && s.ops[id].SilentMatch? && |none.accounts| == 0
    ensures Answered(s, id, none) == s.(ops := s.ops - {id})
  {
  }

  /** The wallet taken is the first one announced under the rdns. */
  lemma {:induction false} FirstMatch(found: seq<Announced>, rdns: string, i: nat)
    requires i < |found| && found[i].rdns == rdns && forall j :: 0 <= j < i ==> found[j].rdns != rdns
    ensures Match(found, rdns) == Some(found[i].provider)
  {
    if i > 0 {
      FirstMatch(found[1..], rdns, i - 1);
    }
  }

  // ----- provider events and listeners -----

  /** An event of the current provider reaches the client once; one of any other provider changes nothing. */
  lemma ProviderEventsExactly(s: System, p: ProviderId, accounts: seq<string>)
    requires HandlersFollowProvider(s.w)
    ensures s.w.provider == Some(p) ==>
              && Next(s, ChainEvent(p)).w == s.w.(emitted := s.w.emitted + [Snapshot(s.w.address, s.w.provider)])
              && Next(s, DisconnectEvent(p)).w == Logout(s.w)
              && Next(s, AccountsEvent(p, accounts)).w == AccountsChanged(s.w, accounts)
    ensures s.w.provider != Some(p) ==>
              Next(s, ChainEvent(p)).w == Next(s, DisconnectEvent(p)).w == Next(s, AccountsEvent(p, accounts)).w == s.w
  {
    var w := s.w;
    assert HandlersOf(w, p) == if w.provider == Some(p) then BOUND else CLEAN;
    assert DeliverChain(w, 1) == Emit(w);
    assert DeliverDisconnect(w, 1) == Logout(w);
    assert DeliverAccounts(w, accounts, 1) == AccountsChanged(w, accounts);
  }

  /** Unbinding takes one copy of each handler and the flag from this provider only, and ends the binding if
      it was this provider's. */
  lemma UnbindExactly(w: Wallet, p: ProviderId, q: ProviderId)
    requires HandlersOf(w, p) == BOUND
    ensures HandlersOf(Unbind(w, Some(p)), p) == CLEAN
    ensures q != p ==> HandlersOf(Unbind(w, Some(p)), q) == HandlersOf(w, q)
    ensures Unbind(w, Some(p)).bound == if w.bound == Some(p) then None else w.bound
  {
  }

  /** Even where it is not the bound one, the provider that a WalletConnect provider replaces loses its
      handlers. */
  lemma ReplacedProviderIsUnbound(w: Wallet, previous: ProviderId, wc: ProviderId, account: string)
    requires w.provider == Some(previous) && previous != wc && HandlersOf(w, previous) == BOUND && w.bound != Some(wc)
    requires w.bound == Some(previous) || w.bound.None?
    ensures HandlersOf(InstallWalletConnect(w, wc, account), previous) == CLEAN
  {
  }

  /** Rebinding gives the handlers to the current provider if it has none, and else changes nothing. */
  lemma RebindBinds(s: System, p: ProviderId)
    requires s.w.provider == Some(p) && (s.w.bound.None? || s.w.bound == Some(p))
    ensures HandlersOf(s.w, p) == CLEAN ==> HandlersOf(Next(s, Rebind).w, p) == BOUND
    ensures HandlersOf(s.w, p) == BOUND && s.w.bound == Some(p) ==> Next(s, Rebind).w == s.w
  {
  }
}
