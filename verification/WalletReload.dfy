/** The session keys: they name the connector of the current provider, and a page reload restores
    from them what was connected before or nothing. */
module WalletReload {
  import opened Wrappers
  import opened WalletState
  import opened WalletProtocol
  import opened WalletInvariants
  import opened WalletStaleness

  /** The stored kind is that of the operation that installed the provider, with the rdns it was given
      if it was an injected connect; an rdns is stored under no other kind. */
  predicate KindFollowsProvider(s: System) {
    && (s.w.provider.Some? ==>
          && s.installed.Some? && s.w.kind == Some(s.installed.value.kind)
          && (s.installed.value.kind.Injected? ==>
                s.installed.value.rdns.Some? && s.w.rdns == s.installed.value.rdns))
    && (s.w.rdns.Some? ==> s.w.kind == Some(Injected))
  }

  /** A silent reconnect that may still act on what it read; the rest only waits for a disconnect. */
  predicate IsReading(op: Op) {
    op.IsSilent() && !op.SilentClear?
  }

  ghost predicate ReadingInFlight(s: System) {
    exists id :: id in s.ops && IsReading(s.ops[id])
  }

  predicate IsSilentStep(s: System, e: Event) {
    (e.Resume? || e.Reject?) && e.id in s.ops && s.ops[e.id].IsSilent()
  }

  // ----- all interleavings -----

  /** What a silent reconnect has to find, at the moment it resumes, for the keys to stay right. */
  predicate KeysAllow(s: System, op: Op, a: Answer) {
    match op
    case SilentGot(_) =>
      if !a.session then s.w.provider.None? && s.w.rdns.None?
      else |a.accounts| > 0 ==> s.w.kind == Some(WalletConnect)
    case SilentAccounts(_) =>
      if |a.accounts| == 0 then s.w.provider.None? && s.w.rdns.None? else s.w.kind == Some(WalletConnect)
    case SilentDiscover =>
      (s.w.rdns.Some? && s.w.rdns.value != "" && Match(a.found, s.w.rdns.value).Some?) || s.w.provider.None?
    case SilentMatch(rdns, _) => |a.accounts| > 0 ==> s.w.kind == Some(Injected) && s.w.rdns == Some(rdns)
    case _ => true
  }

  lemma SilentWalletConnectKeepsKindExactlyIf(s: System, id: nat, op: Op, a: Answer)
    requires KindFollowsProvider(s) && (op.SilentGot? || op.SilentAccounts?)
    ensures KindFollowsProvider(ResumeSilent(s, id, op, a)) <==> KeysAllow(s, op, a)
  {
    var s' := ResumeSilent(s, id, op, a);
    if op.SilentGot? && !a.session {
      assert s'.w.provider == s.w.provider && s'.w.kind == None && s'.w.rdns == s.w.rdns;
    } else if |a.accounts| > 0 {
      assert s'.w.provider == Some(op.wc) && s'.w.kind == s.w.kind && s'.w.rdns == s.w.rdns;
    }
  }

  lemma SilentInjectedKeepsKindExactlyIf(s: System, id: nat, op: Op, a: Answer)
    requires KindFollowsProvider(s) && (op.SilentDiscover? || op.SilentMatch?)
    ensures KindFollowsProvider(ResumeSilent(s, id, op, a)) <==> KeysAllow(s, op, a)
  {
    var s' := ResumeSilent(s, id, op, a);
    if op.SilentMatch? && |a.accounts| > 0 {
      assert s'.w.provider == Some(op.wallet) && s'.w.kind == s.w.kind && s'.w.rdns == s.w.rdns;
    }
  }

  /** A segment of a silent reconnect keeps the keys right exactly if it finds what it counts on, in
      whatever way it was overlapped. */
  lemma SilentStepKeepsKindExactlyIf(s: System, id: nat, a: Answer)
    requires KindFollowsProvider(s) && id in s.ops && s.ops[id].IsSilent()
    ensures KindFollowsProvider(Next(s, Resume(id, a))) <==> KeysAllow(s, s.ops[id], a)
  {
    var op := s.ops[id];
    assert Next(s, Resume(id, a)) == ResumeSilent(s, id, op, a);
    if op.SilentGot? || op.SilentAccounts? {
      SilentWalletConnectKeepsKindExactlyIf(s, id, op, a);
    } else if op.SilentDiscover? || op.SilentMatch? {
      SilentInjectedKeepsKindExactlyIf(s, id, op, a);
    }
  }

  lemma InjectedStepKeepsKind(s: System, id: nat, op: Op, a: Answer)
    requires KindFollowsProvider(s)
    ensures KindFollowsProvider(ResumeInjected(s, id, op, a))
  {
  }

  lemma AttemptStepKeepsKind(s: System, id: nat, op: Op, a: Answer)
    requires KindFollowsProvider(s) && op.IsAttempt()
    ensures KindFollowsProvider(ResumeAttempt(s, id, op, a))
  {
  }

  lemma EventKeepsKind(s: System, e: Event)
    requires e.AccountsEvent? || e.ChainEvent? || e.DisconnectEvent?
    requires HandlersFollowProvider(s.w) && KindFollowsProvider(s)
    ensures KindFollowsProvider(Next(s, e))
  {
    var w := s.w;
    assert HandlersOf(w, e.provider) == if w.provider == Some(e.provider) then BOUND else CLEAN;
    assert DeliverChain(w, 1) == Emit(w);
    assert DeliverDisconnect(w, 1) == Logout(w);
    if e.AccountsEvent? {
      assert DeliverAccounts(w, e.accounts, 1) == AccountsChanged(w, e.accounts);
    }
  }

  /** No segment of any other operation, and no provider event, ever makes the keys wrong. */
  lemma OtherStepsKeepKind(s: System, e: Event)
    requires HandlersFollowProvider(s.w) && KindFollowsProvider(s)
    requires IsSilentStep(s, e) ==> e.Reject?
    ensures KindFollowsProvider(Next(s, e))
  {
    match e
    case Resume(id, a) =>
      if id in s.ops {
        if s.ops[id].IsAttempt() {
          AttemptStepKeepsKind(s, id, s.ops[id], a);
        } else {
          InjectedStepKeepsKind(s, id, s.ops[id], a);
        }
      }
    case AccountsEvent(_, _) => EventKeepsKind(s, e);
    case ChainEvent(_) => EventKeepsKind(s, e);
    case DisconnectEvent(_) => EventKeepsKind(s, e);
    case _ =>
  }

  /** An injected connect that completes while a silent WalletConnect reconnect waits for accounts: the
      WalletConnect provider ends up installed under the key of the injected one. */
  lemma OverlapStoresTheWrongKind(s: System, silent: nat, injected: nat, a: Answer)
    requires silent in s.ops && s.ops[silent].SilentAccounts? && |a.accounts| > 0
    requires injected in s.ops && s.ops[injected].InjectedClear?
    ensures var t := Next(Next(s, Resume(injected, a)), Resume(silent, a));
            && t.w.provider == Some(s.ops[silent].wc) && t.installed.value.kind.WalletConnect?
            && t.w.kind == Some(Injected) && !KindFollowsProvider(t)
  {
  }

  /** Such a state is reached, and with it the failure, by a page that reloads with a WalletConnect
      session and a user who clicks an injected wallet meanwhile. */
  lemma OverlapIsReachable()
    ensures var a := Answer(true, [], 7, []);
            var b := Answer(true, ["a"], 0, []);
            var es := [StartSilent] + [Resume(0, a)] + [Resume(0, a)] + [Resume(0, a)] +
                      [StartInjected(Some(3), "r")] + [Resume(1, b)] + [Resume(1, b)] + [Resume(0, b)];
            var t := Run(Load(Some(WalletConnect), None), es);
            t.w.provider == Some(7) && t.w.kind == Some(Injected) && !KindFollowsProvider(t)
  {
    var a := Answer(true, [], 7, []);
    var b := Answer(true, ["a"], 0, []);
    var s := Load(Some(WalletConnect), None);
    var es4 := [StartSilent] + [Resume(0, a)] + [Resume(0, a)] + [Resume(0, a)];
    var es6 := es4 + [StartInjected(Some(3), "r")] + [Resume(1, b)];
    SilentRequestIsReachable();
    var s4 := Run(s, es4);
    Step(s, es4, StartInjected(Some(3), "r"));
    Step(s, es4 + [StartInjected(Some(3), "r")], Resume(1, b));
    var s5 := Next(s4, StartInjected(Some(3), "r"));
    assert s5.ops == map[0 := SilentAccounts(7), 1 := InjectedRequest(3, "r")];
    var s6 := Run(s, es6);
    assert s6.ops == map[0 := SilentAccounts(7), 1 := InjectedClear(3, "r", "a")];
    Step(s, es6, Resume(1, b));
    Step(s, es6 + [Resume(1, b)], Resume(0, b));
    OverlapStoresTheWrongKind(s6, 0, 1, b);
  }

  /** The steps of a silent WalletConnect reconnect that finds a live session without accounts. */
  lemma SilentRequestIsReachable()
    ensures var a := Answer(true, [], 7, []);
            var t := Run(Load(Some(WalletConnect), None), [StartSilent] + [Resume(0, a)] + [Resume(0, a)] + [Resume(0, a)]);
            t.ops == map[0 := SilentAccounts(7)] && t.nextId == 1 && t.w.walletConnect == Some(7)
  {
    var a := Answer(true, [], 7, []);
    var s := Load(Some(WalletConnect), None);
    SilentSteps(s, a);
    assert [] + [StartSilent] == [StartSilent];
    Step(s, [], StartSilent);
    Step(s, [StartSilent], Resume(0, a));
    Step(s, [StartSilent] + [Resume(0, a)], Resume(0, a));
    Step(s, [StartSilent] + [Resume(0, a)] + [Resume(0, a)], Resume(0, a));
  }

  lemma SilentSteps(s: System, a: Answer)
    requires s == Load(Some(WalletConnect), None) && a.session && a.accounts == []
    ensures var s1 := Next(s, StartSilent);
            var s2 := Next(s1, Resume(0, a));
            var s3 := Next(s2, Resume(0, a));
            Next(s3, Resume(0, a)) ==
            System(s.w.(walletConnect := Some(a.created)), map[0 := SilentAccounts(a.created)], 1, {}, None)
  {
    var w := s.w.(walletConnect := Some(a.created));
    assert Next(s, StartSilent) == System(s.w, map[0 := SilentLoad], 1, {}, None);
    assert Next(System(s.w, map[0 := SilentLoad], 1, {}, None), Resume(0, a)) ==
           System(s.w, map[0 := SilentInit], 1, {}, None);
    SilentSessionStep(s.w, a);
  }

  lemma SilentSessionStep(w: Wallet, a: Answer)
    requires a.session && a.accounts == []
    ensures var created := w.(walletConnect := Some(a.created));
            && Next(System(w, map[0 := SilentInit], 1, {}, None), Resume(0, a)) ==
               System(created, map[0 := SilentGot(a.created)], 1, {}, None)
            && Next(System(created, map[0 := SilentGot(a.created)], 1, {}, None), Resume(0, a)) ==
               System(created, map[0 := SilentAccounts(a.created)], 1, {}, None)
  {
    assert map[0 := SilentInit][0 := SilentGot(a.created)] == map[0 := SilentGot(a.created)];
    assert map[0 := SilentGot(a.created)][0 := SilentAccounts(a.created)] == map[0 := SilentAccounts(a.created)];
  }

  // ----- whole runs -----

  /** A step is allowed unless it resumes a silent reconnect that does not find what it counts on. */
  predicate Allowed(s: System, e: Event) {
    IsSilentStep(s, e) && e.Resume? ==> KeysAllow(s, s.ops[e.id], e.answer)
  }

  lemma StepKeepsKindExactlyIf(s: System, e: Event)
    requires HandlersFollowProvider(s.w) && KindFollowsProvider(s)
    ensures KindFollowsProvider(Next(s, e)) <==> Allowed(s, e)
  {
    if IsSilentStep(s, e) && e.Resume? {
      SilentStepKeepsKindExactlyIf(s, e.id, e.answer);
    } else {
      OtherStepsKeepKind(s, e);
    }
  }

  lemma EventKeepsKindExactlyIf(kind: Option<Connector>, rdns: Option<string>, es: seq<Event>, k: nat)
    requires k < |es| && KindFollowsProvider(Before(Load(kind, rdns), es, k))
    ensures KindFollowsProvider(Before(Load(kind, rdns), es, k + 1)) <==> Allowed(Before(Load(kind, rdns), es, k), es[k])
  {
    RunsStayConsistent(kind, rdns, es[..k]);
    RunStep(Load(kind, rdns), es, k);
    StepKeepsKindExactlyIf(Before(Load(kind, rdns), es, k), es[k]);
  }

  ghost predicate KindFollowsUpTo(s: System, es: seq<Event>, n: nat)
    requires n <= |es|
  {
    forall k :: 0 <= k <= n ==> KindFollowsProvider(Before(s, es, k))
  }

  ghost predicate AllowedUpTo(s: System, es: seq<Event>, n: nat)
    requires n <= |es|
  {
    forall k :: 0 <= k < n ==> Allowed(Before(s, es, k), es[k])
  }

  lemma UpToOneMore(s: System, es: seq<Event>, n: nat)
    requires n < |es|
    ensures KindFollowsUpTo(s, es, n + 1) <==> KindFollowsUpTo(s, es, n) && KindFollowsProvider(Before(s, es, n + 1))
    ensures AllowedUpTo(s, es, n + 1) <==> AllowedUpTo(s, es, n) && Allowed(Before(s, es, n), es[n])
  {
  }

  /** In every run from stored keys that are consistent, the keys name the installer throughout if and
      only if every silent reconnect finds what it counts on whenever it resumes. */
  lemma {:induction false} KeysNameTheInstallerExactlyIf(kind: Option<Connector>, rdns: Option<string>,
                                                        es: seq<Event>, n: nat)
    requires (rdns.Some? ==> kind == Some(Injected)) && n <= |es|
    ensures KindFollowsUpTo(Load(kind, rdns), es, n) <==> AllowedUpTo(Load(kind, rdns), es, n)
  {
    var s := Load(kind, rdns);
    if n == 0 {
      assert Before(s, es, 0) == s;
    } else {
      KeysNameTheInstallerExactlyIf(kind, rdns, es, n - 1);
      UpToOneMore(s, es, n - 1);
      if KindFollowsUpTo(s, es, n - 1) {
        assert KindFollowsProvider(Before(s, es, n - 1));
        EventKeepsKindExactlyIf(kind, rdns, es, n - 1);
      }
    }
  }

  // ----- runs in which silent reconnects are not overlapped -----

  /** What a silent reconnect in flight has read from the keys is still there. */
  ghost predicate SilentReadsHold(s: System) {
    forall id :: id in s.ops && IsReading(s.ops[id]) ==>
      && s.w.provider.None?
      && (s.ops[id].SilentLoad? || s.ops[id].SilentInit? || s.ops[id].SilentGot? || s.ops[id].SilentAccounts? ==>
            s.w.kind == Some(WalletConnect))
      && (s.ops[id].SilentDiscover? ==> s.w.kind == Some(Injected))
      && (s.ops[id].SilentMatch? ==> s.w.kind == Some(Injected) && s.w.rdns == Some(s.ops[id].rdns))
  }

  ghost predicate OneReading(s: System) {
    forall i, j :: i in s.ops && j in s.ops && IsReading(s.ops[i]) && IsReading(s.ops[j]) ==> i == j
  }

  /** What a silent reconnect reads. */
  predicate SameKeys(w: Wallet, w': Wallet) {
    w'.provider == w.provider && w'.kind == w.kind && w'.rdns == w.rdns
  }

  /** A silent reconnect starts with nothing connected, as it does on page load, and until it is done no
      other starts and nothing else connects, disconnects or touches the keys. */
  ghost predicate Undisturbed(s: System, e: Event) {
    && (ReadingInFlight(s) ==> IsSilentStep(s, e) || (SameKeys(s.w, Next(s, e).w) && !e.StartSilent?))
    && (e.StartSilent? ==> s.w.provider.None?)
  }

  ghost predicate UndisturbedRun(s: System, es: seq<Event>) {
    forall k :: 0 <= k < |es| ==> Undisturbed(Before(s, es, k), es[k])
  }

  /** The call that resumes was the only one reading, and it reads on from what it has read, or is done. */
  lemma SilentReadsAfter(s: System, s': System, id: nat)
    requires SilentReadsHold(s) && OneReading(s) && id in s.ops && IsReading(s.ops[id])
    requires s'.ops.Keys <= s.ops.Keys && forall i :: i in s'.ops && i != id ==> s'.ops[i] == s.ops[i]
    requires id in s'.ops && IsReading(s'.ops[id]) ==>
               && SameKeys(s.w, s'.w)
               && (s'.ops[id].SilentMatch? <==> s.ops[id].SilentDiscover?)
               && !s'.ops[id].SilentDiscover? && !s.ops[id].SilentMatch?
               && (s'.ops[id].SilentMatch? ==> s.w.rdns == Some(s'.ops[id].rdns))
    ensures SilentReadsHold(s') && OneReading(s')
  {
  }

  lemma SilentGoesOn(s: System, id: nat, a: Answer)
    requires id in s.ops && s.ops[id].IsSilent()
    ensures var s' := ResumeSilent(s, id, s.ops[id], a);
            && s'.ops.Keys <= s.ops.Keys && (forall i :: i in s'.ops && i != id ==> s'.ops[i] == s.ops[i])
            && (id in s'.ops && IsReading(s'.ops[id]) ==>
                  && SameKeys(s.w, s'.w)
                  && (s'.ops[id].SilentMatch? <==> s.ops[id].SilentDiscover?)
                  && !s'.ops[id].SilentDiscover? && !s.ops[id].SilentMatch?
                  && (s'.ops[id].SilentMatch? ==> s.w.rdns == Some(s'.ops[id].rdns)))
  {
  }

  lemma SilentReadsOwnStep(s: System, e: Event)
    requires SilentReadsHold(s) && OneReading(s) && IsSilentStep(s, e)
    ensures SilentReadsHold(Next(s, e)) && OneReading(Next(s, e))
  {
    if e.Resume? {
      SilentGoesOn(s, e.id, e.answer);
      if IsReading(s.ops[e.id]) {
        SilentReadsAfter(s, Next(s, e), e.id);
      }
    }
  }

  /** Only a call of silentConnect brings a silent reconnect into being, and only its own steps move it. */
  lemma SilentsAreStarted(s: System, e: Event)
    requires !IsSilentStep(s, e) && !e.StartSilent?
    ensures forall id :: id in Next(s, e).ops && IsReading(Next(s, e).ops[id]) ==>
              id in s.ops && s.ops[id] == Next(s, e).ops[id]
  {
    if e.Resume? && e.id in s.ops {
      ResumeShape(s, e.id, e.answer);
      NotBornSilent(s, e.id, e.answer);
    }
  }

  lemma NotBornSilent(s: System, id: nat, a: Answer)
    requires id in s.ops && !s.ops[id].IsSilent()
    ensures var s' := ResumeOp(s, id, a); id in s'.ops ==> !s'.ops[id].IsSilent()
  {
  }

  lemma SilentReadsStep(s: System, e: Event)
    requires KindFollowsProvider(s) && SilentReadsHold(s) && OneReading(s) && Undisturbed(s, e)
    ensures SilentReadsHold(Next(s, e)) && OneReading(Next(s, e))
  {
    if IsSilentStep(s, e) {
      SilentReadsOwnStep(s, e);
    } else if !e.StartSilent? {
      SilentsAreStarted(s, e);
    }
  }

  ghost predicate Settled(s: System) {
    Consistent(s) && KindFollowsProvider(s) && SilentReadsHold(s) && OneReading(s)
  }

  /** A silent reconnect whose reads still hold finds what it counts on. */
  lemma SettledStep(s: System, e: Event)
    requires Settled(s) && Undisturbed(s, e)
    ensures Allowed(s, e) && Settled(Next(s, e))
  {
    HandlersStep(s, e);
    AddressStep(s, e);
    AttemptsStep(s, e);
    SilentReadsStep(s, e);
    StepKeepsKindExactlyIf(s, e);
  }

  lemma {:induction false} UndisturbedRunSettles(kind: Option<Connector>, rdns: Option<string>, es: seq<Event>, k: nat)
    requires rdns.Some? ==> kind == Some(Injected)
    requires k <= |es| && UndisturbedRun(Load(kind, rdns), es)
    ensures Settled(Before(Load(kind, rdns), es, k))
  {
    if k > 0 {
      UndisturbedRunSettles(kind, rdns, es, k - 1);
      RunStep(Load(kind, rdns), es, k - 1);
      SettledStep(Before(Load(kind, rdns), es, k - 1), es[k - 1]);
    }
  }

  /** So in every run whose silent reconnects are not overlapped by anything that touches the connection,
      every silent reconnect finds what it counts on, and the stored kind and rdns are always those of
      the operation that installed the current provider. */
  lemma KeysNameTheInstaller(kind: Option<Connector>, rdns: Option<string>, es: seq<Event>)
    requires rdns.Some? ==> kind == Some(Injected)
    requires UndisturbedRun(Load(kind, rdns), es)
    ensures KindFollowsUpTo(Load(kind, rdns), es, |es|) && AllowedUpTo(Load(kind, rdns), es, |es|)
  {
    forall k | 0 <= k <= |es| ensures KindFollowsProvider(Before(Load(kind, rdns), es, k)) {
      UndisturbedRunSettles(kind, rdns, es, k);
    }
    KeysNameTheInstallerExactlyIf(kind, rdns, es, |es|);
  }

  // ----- reload -----

  /** A reload keeps the session keys and nothing else. */
  function Reload(s: System): System {
    Load(s.w.kind, s.w.rdns)
  }

  /** The reconnect of a fresh page, up to any point: nothing but silentConnect runs. */
  predicate SilentOnly(es: seq<Event>) {
    && (0 < |es| ==> es[0].StartSilent?)
    && forall k :: 1 <= k < |es| ==> IsStepOf(es[k], 0)
  }

  ghost predicate AnnouncedIn(es: seq<Event>, rdns: string, p: ProviderId) {
    exists k :: 0 <= k < |es| && es[k].Resume? && Announced(rdns, p) in es[k].answer.found
  }

  lemma {:induction false} MatchIsAnnounced(found: seq<Announced>, rdns: string)
    ensures Match(found, rdns).Some? ==> Announced(rdns, Match(found, rdns).value) in found
    ensures Match(found, rdns).None? ==> forall w :: w in found ==> w.rdns != rdns
  {
    if found != [] {
      MatchIsAnnounced(found[1..], rdns);
    }
  }

  /** A reconnecting page: only silentConnect is in flight, until it has installed a provider, and the
      keys are as found until they are dropped for good. */
  ghost predicate KeepsKeys(s: System, kind: Option<Connector>, rdns: Option<string>) {
    && (forall id :: id in s.ops ==> id == 0 && s.ops[id].IsSilent())
    && (s.w.provider.Some? ==> s.ops == map[])
    && ((s.w.kind == kind && s.w.rdns == rdns) ||
        (s.w.provider.None? && forall id :: id in s.ops ==> s.ops[id].SilentClear?))
  }

  /** Whatever is about to be or has been restored under an rdns was announced under it. */
  ghost predicate RestoresAnnounced(s: System, es: seq<Event>) {
    && (0 in s.ops && s.ops[0].SilentMatch? ==> AnnouncedIn(es, s.ops[0].rdns, s.ops[0].wallet))
    && (s.w.provider.Some? && s.installed.Some? && s.installed.value.rdns.Some? ==>
          AnnouncedIn(es, s.installed.value.rdns.value, s.w.provider.value))
  }

  ghost predicate Restoring(s: System, kind: Option<Connector>, rdns: Option<string>, es: seq<Event>) {
    Settled(s) && KeepsKeys(s, kind, rdns) && RestoresAnnounced(s, es)
  }

  lemma KeepsKeysWalletConnect(s: System, kind: Option<Connector>, rdns: Option<string>, a: Answer)
    requires KeepsKeys(s, kind, rdns) && 0 in s.ops && !(s.ops[0].SilentDiscover? || s.ops[0].SilentMatch?)
    ensures KeepsKeys(ResumeSilent(s, 0, s.ops[0], a), kind, rdns)
  {
    SilentShape(s, 0, a);
    assert s.w.provider.None?;
  }

  lemma KeepsKeysInjected(s: System, kind: Option<Connector>, rdns: Option<string>, a: Answer)
    requires KeepsKeys(s, kind, rdns) && 0 in s.ops && (s.ops[0].SilentDiscover? || s.ops[0].SilentMatch?)
    ensures KeepsKeys(ResumeSilent(s, 0, s.ops[0], a), kind, rdns)
  {
    SilentShape(s, 0, a);
    assert s.w.provider.None?;
  }

  lemma KeepsKeysStep(s: System, kind: Option<Connector>, rdns: Option<string>, e: Event)
    requires KeepsKeys(s, kind, rdns) && IsStepOf(e, 0)
    ensures KeepsKeys(Next(s, e), kind, rdns)
  {
    if 0 in s.ops && e.Resume? {
      assert Next(s, e) == ResumeSilent(s, 0, s.ops[0], e.answer);
      if s.ops[0].SilentDiscover? || s.ops[0].SilentMatch? {
        KeepsKeysInjected(s, kind, rdns, e.answer);
      } else {
        KeepsKeysWalletConnect(s, kind, rdns, e.answer);
      }
    }
  }

  lemma AnnouncedLater(es: seq<Event>, e: Event, rdns: string, p: ProviderId)
    requires AnnouncedIn(es, rdns, p) || (e.Resume? && Announced(rdns, p) in e.answer.found)
    ensures AnnouncedIn(es + [e], rdns, p)
  {
    assert (es + [e])[|es|] == e;
    if k :| 0 <= k < |es| && es[k].Resume? && Announced(rdns, p) in es[k].answer.found {
      assert (es + [e])[k] == es[k];
    }
  }

  lemma RestoresAnnouncedStep(s: System, es: seq<Event>, e: Event)
    requires RestoresAnnounced(s, es) && IsStepOf(e, 0) && (0 in s.ops ==> s.ops[0].IsSilent())
    ensures RestoresAnnounced(Next(s, e), es + [e])
  {
    var s' := Next(s, e);
    if 0 in s'.ops && s'.ops[0].SilentMatch? {
      if e.Resume? {
        assert s.ops[0].SilentDiscover?;
        MatchIsAnnounced(e.answer.found, s.w.rdns.value);
      }
      AnnouncedLater(es, e, s'.ops[0].rdns, s'.ops[0].wallet);
    }
    if s'.w.provider.Some? && s'.installed.Some? && s'.installed.value.rdns.Some? {
      AnnouncedLater(es, e, s'.installed.value.rdns.value, s'.w.provider.value);
    }
  }

  lemma RestoringStep(s: System, kind: Option<Connector>, rdns: Option<string>, es: seq<Event>, e: Event)
    requires Restoring(s, kind, rdns, es) && IsStepOf(e, 0)
    ensures Restoring(Next(s, e), kind, rdns, es + [e])
  {
    if 0 in s.ops {
      assert Undisturbed(s, e);
      SettledStep(s, e);
    }
    KeepsKeysStep(s, kind, rdns, e);
    RestoresAnnouncedStep(s, es, e);
  }

  lemma {:induction false} RestoringRun(kind: Option<Connector>, rdns: Option<string>, es: seq<Event>, k: nat)
    requires (rdns.Some? ==> kind == Some(Injected)) && SilentOnly(es) && k <= |es|
    ensures Restoring(Before(Load(kind, rdns), es, k), kind, rdns, es[..k])
  {
    var s := Load(kind, rdns);
    if k == 1 {
      RunStep(s, es, 0);
      assert Undisturbed(s, es[0]);
      SettledStep(s, es[0]);
    } else if k > 1 {
      RestoringRun(kind, rdns, es, k - 1);
      RunStep(s, es, k - 1);
      RestoringStep(Before(s, es, k - 1), kind, rdns, es[..k - 1], es[k - 1]);
      assert es[..k - 1] + [es[k - 1]] == es[..k];
    }
  }

  /** After a reload the reconnect restores nothing, or a provider under the connector kind that was
      connected before; an injected one only from an announcement under the same rdns. */
  lemma {:induction false} ReloadRestoresTheSameConnector(s: System, es: seq<Event>)
    requires KindFollowsProvider(s) && s.w.provider.Some? && SilentOnly(es)
    ensures var t := Run(Reload(s), es);
            t.w.provider.Some? ==>
              && t.installed.Some? && t.installed.value.kind == s.installed.value.kind
              && (t.installed.value.kind.Injected? ==>
                    && t.installed.value.rdns == s.installed.value.rdns
                    && AnnouncedIn(es, s.installed.value.rdns.value, t.w.provider.value))
  {
    RestoringRun(s.w.kind, s.w.rdns, es, |es|);
    assert es[..|es|] == es;
  }

  /** After a logout a reload restores nothing. */
  lemma {:induction false} LogoutLeavesNothingToRestore(s: System, es: seq<Event>)
    requires SilentOnly(es)
    ensures Run(Reload(Next(s, Disconnect)), es).w.provider.None?
  {
    RestoringRun(None, None, es, |es|);
    assert es[..|es|] == es;
  }

  /** The other way round: an injected wallet that is announced again and still reports an account is
      restored. */
  lemma {:induction false} ReloadRestoresAnAnnouncedWallet(s: System, found: seq<Announced>, p: ProviderId,
                                                           account: string)
    requires KindFollowsProvider(s) && s.w.provider.Some? && s.installed.value.kind.Injected?
    requires s.w.rdns != Some("") && Match(found, s.w.rdns.value) == Some(p)
    ensures var es := [StartSilent] + [Resume(0, Answer(false, [], 0, found))] + [Resume(0, Answer(false, [account], 0, []))];
            var t := Run(Reload(s), es);
            SilentOnly(es) && t.w.provider == Some(p) && t.w.address == Some(account)
  {
    var s0 := Reload(s);
    var discovered := Resume(0, Answer(false, [], 0, found));
    Step(s0, [], StartSilent);
    assert [] + [StartSilent] == [StartSilent];
    Step(s0, [StartSilent], discovered);
    Step(s0, [StartSilent] + [discovered], Resume(0, Answer(false, [account], 0, [])));
    var s1 := Next(s0, StartSilent);
    assert s1.ops == map[0 := SilentDiscover];
    var s2 := Next(s1, discovered);
    assert s2.ops == map[0 := SilentMatch(s.w.rdns.value, p)];
  }

  /** And a WalletConnect session that is still live and shows an account is restored. */
  lemma ReloadRestoresALiveSession(s: System, wc: ProviderId, account: string)
    requires KindFollowsProvider(s) && s.w.provider.Some? && s.installed.value.kind.WalletConnect?
    ensures var a := Answer(true, [account], wc, []);
            var es := [StartSilent] + [Resume(0, a)] + [Resume(0, a)] + [Resume(0, a)];
            var t := Run(Reload(s), es);
            SilentOnly(es) && t.w.provider == Some(wc) && t.w.address == Some(account) &&
            t.installed == Some(Installation(WalletConnect, None)) && KindFollowsProvider(t)
  {
    var a := Answer(true, [account], wc, []);
    var s0 := Reload(s);
    assert [] + [StartSilent] == [StartSilent];
    Step(s0, [], StartSilent);
    Step(s0, [StartSilent], Resume(0, a));
    Step(s0, [StartSilent] + [Resume(0, a)], Resume(0, a));
    Step(s0, [StartSilent] + [Resume(0, a)] + [Resume(0, a)], Resume(0, a));
    LiveSessionSteps(s0, a);
  }

  lemma LiveSessionSteps(s: System, a: Answer)
    requires s == Load(Some(WalletConnect), None) && a.session && |a.accounts| > 0
    ensures var s1 := Next(s, StartSilent);
            var s2 := Next(s1, Resume(0, a));
            var s3 := Next(s2, Resume(0, a));
            var t := Next(s3, Resume(0, a));
            && t.w.provider == Some(a.created) && t.w.address == Some(a.accounts[0])
            && t.w.kind == Some(WalletConnect) && t.w.rdns == None
            && t.installed == Some(Installation(WalletConnect, None))
  {
    var w := s.w.(walletConnect := Some(a.created));
    assert Next(s, StartSilent) == System(s.w, map[0 := SilentLoad], 1, {}, None);
    assert Next(System(s.w, map[0 := SilentLoad], 1, {}, None), Resume(0, a)) ==
           System(s.w, map[0 := SilentInit], 1, {}, None);
    assert map[0 := SilentInit][0 := SilentGot(a.created)] == map[0 := SilentGot(a.created)];
    assert Next(System(s.w, map[0 := SilentInit], 1, {}, None), Resume(0, a)) ==
           System(w, map[0 := SilentGot(a.created)], 1, {}, None);
  }
}
