/** The module-level state of the wallet client as one value, and the effect that every
    synchronous stretch of its code has on that value. */
module WalletState {
  import opened Wrappers

  type ProviderId = nat

  /** The two connector kinds kept under the session key. */
  datatype Connector = Injected | WalletConnect

  /** What the client has left on a provider object: its own "listeners bound" flag and the number
      of copies of each of its three handlers. */
  datatype Handlers = Handlers(flagged: bool, accounts: nat, chain: nat, disconnect: nat)

  const CLEAN := Handlers(false, 0, 0, 0)
  const BOUND := Handlers(true, 1, 1, 1)

  /** What a change listener sees: the address it is handed and the provider it can read back. */
  datatype Snapshot = Snapshot(address: Option<string>, provider: Option<ProviderId>)

  datatype Wallet = Wallet(
    address: Option<string>,
    provider: Option<ProviderId>,
    walletConnect: Option<ProviderId>,
    bound: Option<ProviderId>,
    generation: nat,
    locked: bool,
    kind: Option<Connector>,
    rdns: Option<string>,
    handlers: map<ProviderId, Handlers>,
    emitted: seq<Snapshot>)

  /** The state of a freshly loaded page: everything is reset but the two session-storage keys. */
  function PageLoad(kind: Option<Connector>, rdns: Option<string>): Wallet {
    Wallet(None, None, None, None, 0, false, kind, rdns, map[], [])
  }

  function HandlersOf(w: Wallet, p: ProviderId): Handlers {
    if p in w.handlers then w.handlers[p] else CLEAN
  }

  function Emit(w: Wallet): Wallet {
    w.(emitted := w.emitted + [Snapshot(w.address, w.provider)])
  }

  /** Removing a listener drops one copy, if there is one. */
  function Fewer(n: nat): nat {
    if n == 0 then 0 else n - 1
  }

  function Unbind(w: Wallet, p: Option<ProviderId>): Wallet {
    match p
    case None => w
    case Some(q) =>
      var h := HandlersOf(w, q);
      w.(handlers := w.handlers[q := Handlers(false, Fewer(h.accounts), Fewer(h.chain), Fewer(h.disconnect))],
         bound := if w.bound == p then None else w.bound)
  }

  function Bind(w: Wallet, q: ProviderId): Wallet {
    var w' := if w.bound.Some? && w.bound != Some(q) then Unbind(w, w.bound) else w;
    var h := HandlersOf(w', q);
    if h.flagged then
      w'.(bound := Some(q))
    else
      w'.(handlers := w'.handlers[q := Handlers(true, h.accounts + 1, h.chain + 1, h.disconnect + 1)],
          bound := Some(q))
  }

  /** The synchronous part of dropping the WalletConnect provider. */
  function ClearWalletConnect(w: Wallet): Wallet {
    w.(walletConnect := None)
  }

  function Logout(w: Wallet): Wallet {
    var w' := Emit(w.(address := None, provider := None, kind := None, rdns := None));
    ClearWalletConnect(Unbind(w', w.provider))
  }

  function AccountsChanged(w: Wallet, accounts: seq<string>): Wallet {
    if |accounts| == 0 || accounts[0] == "" then
      Logout(w.(address := None))
    else
      var fallback := if w.walletConnect == w.provider then WalletConnect else Injected;
      Emit(w.(address := Some(accounts[0]), kind := if w.kind.Some? then w.kind else Some(fallback)))
  }

  /** An event reaches every registered copy of a handler. */
  function DeliverAccounts(w: Wallet, accounts: seq<string>, copies: nat): Wallet
    decreases copies
  {
    if copies == 0 then w else DeliverAccounts(AccountsChanged(w, accounts), accounts, copies - 1)
  }

  function DeliverChain(w: Wallet, copies: nat): Wallet
    decreases copies
  {
    if copies == 0 then w else DeliverChain(Emit(w), copies - 1)
  }

  function DeliverDisconnect(w: Wallet, copies: nat): Wallet
    decreases copies
  {
    if copies == 0 then w else DeliverDisconnect(Logout(w), copies - 1)
  }

  function InstallInjected(w: Wallet, p: ProviderId, account: string, rdns: string): Wallet {
    var w' := Bind(w.(provider := Some(p)), p);
    Emit(w'.(address := Some(account), kind := Some(Injected), rdns := Some(rdns)))
  }

  function InstallWalletConnect(w: Wallet, p: ProviderId, account: string): Wallet {
    var w' := if w.provider.Some? && w.provider != Some(p) then Unbind(w, w.provider) else w;
    var w'' := Bind(w'.(provider := Some(p)), p);
    Emit(w''.(address := Some(account), kind := Some(WalletConnect), rdns := None))
  }

  function InstallSilently(w: Wallet, p: ProviderId, account: string): Wallet {
    var w' := Bind(w.(provider := Some(p)), p);
    Emit(w'.(address := Some(account)))
  }

  /** Starting an attempt takes the lock and a fresh generation. */
  function BeginAttempt(w: Wallet): Wallet {
    w.(locked := true, generation := w.generation + 1)
  }

  function Abort(w: Wallet, session: bool): Wallet {
    var w' := w.(generation := w.generation + 1, locked := false);
    if w.walletConnect.Some? && !session then ClearWalletConnect(w') else w'
  }

  /** The finally block of an attempt: only the current attempt may release the lock. */
  function EndAttempt(w: Wallet, gen: nat): Wallet {
    if gen == w.generation then w.(locked := false) else w
  }
}
