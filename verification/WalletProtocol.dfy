/** The wallet client as a state machine: calls of its exported functions are cut at every await,
    the pieces of calls in flight interleave freely, and everything the outside world answers is an
    argument of the event that delivers it. */
module WalletProtocol {
  import opened Wrappers
  import opened WalletState

  /** Where a call in flight is waiting. */
  datatype Op =
      // connectInjected
    | InjectedDiscover(rdns: string)
    | InjectedRequest(wallet: ProviderId, rdns: string)
    | InjectedClear(wallet: ProviderId, rdns: string, account: string)
    | InjectedMonad
      // connectWalletConnect, which knows the generation it took
    | AttemptClear(gen: nat)
    | AttemptLoad(gen: nat)
    | AttemptInit(gen: nat)
    | AttemptGot(gen: nat, wc: ProviderId)
    | AttemptPairing(gen: nat, wc: ProviderId)
    | AttemptAccounts(gen: nat, wc: ProviderId)
    | AttemptEmpty(gen: nat)
    | AttemptMonad(gen: nat)
      // silentConnect
    | SilentLoad
    | SilentInit
    | SilentGot(wc: ProviderId)
    | SilentAccounts(wc: ProviderId)
    | SilentClear
    | SilentDiscover
    | SilentMatch(rdns: string, wallet: ProviderId)
  {
    predicate IsAttempt() {
      AttemptClear? || AttemptLoad? || AttemptInit? || AttemptGot? || AttemptPairing? ||
      AttemptAccounts? || AttemptEmpty? || AttemptMonad?
    }

    predicate IsSilent() {
      SilentLoad? || SilentInit? || SilentGot? || SilentAccounts? || SilentClear? || SilentDiscover? || SilentMatch?
    }

    /** The attempt has not yet passed its second generation check. */
    predicate Unchecked() {
      AttemptClear? || AttemptLoad? || AttemptInit? || AttemptGot? || AttemptPairing?
    }

    /** The awaited promise is one that can reject. */
    predicate CanReject() {
      InjectedRequest? || InjectedMonad? || AttemptLoad? || AttemptInit? || AttemptPairing? || AttemptAccounts? ||
      AttemptMonad? || SilentLoad? || SilentInit? || SilentAccounts? || SilentMatch?
    }
  }

  datatype Announced = Announced(rdns: string, provider: ProviderId)

  /** What the world shows to a call that resumes; each call reads the parts it asked for. */
  datatype Answer = Answer(session: bool, accounts: seq<string>, created: ProviderId, found: seq<Announced>)

  datatype Event =
    | StartInjected(wallet: Option<ProviderId>, rdns: string)
    | StartWalletConnect(session: bool)
    | StartSilent
    | AbortWalletConnect(session: bool)
    | Disconnect
    | Rebind
    | AccountsEvent(provider: ProviderId, accounts: seq<string>)
    | ChainEvent(provider: ProviderId)
    | DisconnectEvent(provider: ProviderId)
    | Resume(id: nat, answer: Answer)
    | Reject(id: nat)

  /** The operation that installed the current provider; recorded by the model only. */
  datatype Installation = Installation(kind: Connector, rdns: Option<string>)

  /** The wallet, the calls in flight, and the history the properties speak about: which accounts
      each provider has reported, and how the current provider came to be installed. */
  datatype System = System(
    w: Wallet,
    ops: map<nat, Op>,
    nextId: nat,
    reports: set<(ProviderId, string)>,
    installed: Option<Installation>)

  function Load(kind: Option<Connector>, rdns: Option<string>): System {
    System(PageLoad(kind, rdns), map[], 0, {}, None)
  }

  function Start(s: System, op: Op): System {
    s.(ops := s.ops[s.nextId := op], nextId := s.nextId + 1)
  }

  function Finish(s: System, id: nat): System {
    s.(ops := s.ops - {id})
  }

  function Advance(s: System, id: nat, op: Op): System {
    s.(ops := s.ops[id := op])
  }

  function Reported(s: System, p: ProviderId, accounts: seq<string>): System {
    s.(reports := s.reports + set i | 0 <= i < |accounts| :: (p, accounts[i]))
  }

  /** getWalletConnectProvider either hands back the live provider or starts loading the package. */
  function AttemptProvider(w: Wallet, gen: nat): Op {
    match w.walletConnect
    case Some(wc) => AttemptGot(gen, wc)
    case None => AttemptLoad(gen)
  }

  function BeginWalletConnect(s: System, session: bool): System {
    if s.w.locked then
      s
    else
      var w := BeginAttempt(s.w);
      if w.walletConnect.Some? && !session then
        Start(s.(w := ClearWalletConnect(w)), AttemptClear(w.generation))
      else
        Start(s.(w := w), AttemptProvider(w, w.generation))
  }

  function BeginSilent(s: System): System {
    match s.w.kind
    case None => s
    case Some(WalletConnect) =>
      Start(s, match s.w.walletConnect case Some(wc) => SilentGot(wc) case None => SilentLoad)
    case Some(Injected) => Start(s, SilentDiscover)
  }

  function CommitInjected(s: System, id: nat, p: ProviderId, rdns: string, account: string): System {
    Advance(s.(w := InstallInjected(s.w, p, account, rdns), installed := Some(Installation(Injected, Some(rdns)))),
            id, InjectedMonad)
  }

  function ResumeInjected(s: System, id: nat, op: Op, a: Answer): System {
    match op
    case InjectedDiscover(rdns) =>
      if |a.found| == 0 then Finish(s, id) else Advance(s, id, InjectedRequest(a.found[0].provider, rdns))
    case InjectedRequest(wallet, rdns) =>
      if |a.accounts| == 0 then
        Finish(s, id)
      else
        var s' := Reported(s, wallet, a.accounts);
        if s.w.walletConnect.Some? && s.w.walletConnect != Some(wallet) then
          Advance(s'.(w := ClearWalletConnect(s.w)), id, InjectedClear(wallet, rdns, a.accounts[0]))
        else
          CommitInjected(s', id, wallet, rdns, a.accounts[0])
    case InjectedClear(wallet, rdns, account) => CommitInjected(s, id, wallet, rdns, account)
    case _ => Finish(s, id)
  }

  function CommitAttempt(s: System, id: nat, gen: nat, wc: ProviderId, account: string): System {
    Advance(s.(w := InstallWalletConnect(s.w, wc, account), installed := Some(Installation(WalletConnect, None))),
            id, AttemptMonad(gen))
  }

  function FinishAttempt(s: System, id: nat, gen: nat): System {
    Finish(s.(w := EndAttempt(s.w, gen)), id)
  }

  /** Past the second generation check: use the accounts the provider already shows, or ask for them. */
  function Paired(s: System, id: nat, gen: nat, wc: ProviderId, a: Answer): System {
    if |a.accounts| > 0 then
      CommitAttempt(Reported(s, wc, a.accounts), id, gen, wc, a.accounts[0])
    else
      Advance(s, id, AttemptAccounts(gen, wc))
  }

  function ResumeAttempt(s: System, id: nat, op: Op, a: Answer): System
    requires op.IsAttempt()
  {
    match op
    case AttemptClear(gen) => Advance(s, id, AttemptProvider(s.w, gen))
    case AttemptLoad(gen) => Advance(s, id, AttemptInit(gen))
    case AttemptInit(gen) => Advance(s.(w := s.w.(walletConnect := Some(a.created))), id, AttemptGot(gen, a.created))
    case AttemptGot(gen, wc) =>
      if gen != s.w.generation then FinishAttempt(s, id, gen)
      else if a.session then Paired(s, id, gen, wc, a)
      else Advance(s, id, AttemptPairing(gen, wc))
    case AttemptPairing(gen, wc) =>
      if gen != s.w.generation then FinishAttempt(s, id, gen) else Paired(s, id, gen, wc, a)
    case AttemptAccounts(gen, wc) =>
      if |a.accounts| == 0 then
        Advance(s.(w := ClearWalletConnect(s.w)), id, AttemptEmpty(gen))
      else
        CommitAttempt(Reported(s, wc, a.accounts), id, gen, wc, a.accounts[0])
    case AttemptEmpty(gen) => FinishAttempt(s, id, gen)
    case AttemptMonad(gen) => FinishAttempt(s, id, gen)
  }

  /** The first announced wallet with the stored rdns, if there is one. */
  function Match(found: seq<Announced>, rdns: string): Option<ProviderId> {
    if found == [] then None
    else if found[0].rdns == rdns then Some(found[0].provider)
    else Match(found[1..], rdns)
  }

  function CommitSilently(s: System, id: nat, p: ProviderId, account: string, how: Installation): System {
    Finish(s.(w := InstallSilently(s.w, p, account), installed := Some(how)), id)
  }

  function ForgetWalletConnect(s: System, id: nat): System {
    Advance(s.(w := ClearWalletConnect(s.w.(kind := None))), id, SilentClear)
  }

  function ResumeSilent(s: System, id: nat, op: Op, a: Answer): System
    requires op.IsSilent()
  {
    match op
    case SilentLoad => Advance(s, id, SilentInit)
    case SilentInit => Advance(s.(w := s.w.(walletConnect := Some(a.created))), id, SilentGot(a.created))
    case SilentGot(wc) =>
      if !a.session then ForgetWalletConnect(s, id)
      else if |a.accounts| > 0 then
        CommitSilently(Reported(s, wc, a.accounts), id, wc, a.accounts[0], Installation(WalletConnect, None))
      else
        Advance(s, id, SilentAccounts(wc))
    case SilentAccounts(wc) =>
      if |a.accounts| > 0 then
        CommitSilently(Reported(s, wc, a.accounts), id, wc, a.accounts[0], Installation(WalletConnect, None))
      else
        ForgetWalletConnect(s, id)
    case SilentClear => Finish(s, id)
    case SilentDiscover =>
      var found := if s.w.rdns.Some? && s.w.rdns.value != "" then Match(a.found, s.w.rdns.value) else None;
      if found.None? then
        Finish(s.(w := s.w.(kind := None, rdns := None)), id)
      else
        Advance(s, id, SilentMatch(s.w.rdns.value, found.value))
    case SilentMatch(rdns, wallet) =>
      if |a.accounts| == 0 then
        Finish(s, id)
      else
        CommitSilently(Reported(s, wallet, a.accounts), id, wallet, a.accounts[0],
                       Installation(Injected, Some(rdns)))
  }

  function ResumeOp(s: System, id: nat, a: Answer): System {
    if id !in s.ops then s
    else if s.ops[id].IsAttempt() then ResumeAttempt(s, id, s.ops[id], a)
    else if s.ops[id].IsSilent() then ResumeSilent(s, id, s.ops[id], a)
    else ResumeInjected(s, id, s.ops[id], a)
  }

  function RejectOp(s: System, id: nat): System {
    if id !in s.ops || !s.ops[id].CanReject() then s
    else if s.ops[id].IsAttempt() then FinishAttempt(s, id, s.ops[id].gen)
    else Finish(s, id)
  }

  /** One synchronous segment. Events that cannot happen in a state leave it as it is. */
  function Next(s: System, e: Event): System {
    match e
    case StartInjected(Some(wallet), rdns) => Start(s, InjectedRequest(wallet, rdns))
    case StartInjected(None, rdns) => Start(s, InjectedDiscover(rdns))
    case StartWalletConnect(session) => BeginWalletConnect(s, session)
    case StartSilent => BeginSilent(s)
    case AbortWalletConnect(session) => s.(w := Abort(s.w, session))
    case Disconnect => s.(w := Logout(s.w))
    case Rebind => if s.w.provider.Some? then s.(w := Bind(s.w, s.w.provider.value)) else s
    case AccountsEvent(p, accounts) =>
      Reported(s, p, accounts).(w := DeliverAccounts(s.w, accounts, HandlersOf(s.w, p).accounts))
    case ChainEvent(p) => s.(w := DeliverChain(s.w, HandlersOf(s.w, p).chain))
    case DisconnectEvent(p) => s.(w := DeliverDisconnect(s.w, HandlersOf(s.w, p).disconnect))
    case Resume(id, a) => ResumeOp(s, id, a)
    case Reject(id) => RejectOp(s, id)
  }

  function Run(s: System, es: seq<Event>): System {
    if es == [] then s else Next(Run(s, es[..|es| - 1]), es[|es| - 1])
  }
}
