/** The pool client: which requests it makes in which order, against a wallet and a chain that may
    answer anything. A call that throws returns None or false. */
module PoolClient {
  import opened Wrappers
  import opened AbiWords
  import opened CallData

  const POOL := "0xc779850835B7C6872f7B2893A4d4A2cCf3733F15"
  const USDC := "0x754704Bc059F8C67012fEd69BC8A327a5aafb603"
  const COLLECTIONS := [
    "0xc96d31f8626c6d03fae5dcd3d61e3fb9f4a73763", "0x200723a706de0013316e5cd8eba2b3f53dd90c29",
    "0xb0dad798c80e40dd6b8e8545074c6a5b7b97d2c0", "0x818030837e8350ba63e64d7dc01a547fa73c8279",
    "0xbb4738d05ad1b3da57a4881bae62ce9bb1eeed6c"]
  const CHAIN_ID := "0x8f"

  /** What the client asks of the world and learns from it, in order. An answer about an account or a
      target is recorded with the account or target it is held against. Call data is recorded as the
      request it encodes (see CallData.Data). */
  datatype Observation =
    | Account(address: Option<string>)
    | Connected(current: Option<nat>)
    | Failed
    | Switch(provider: nat, answer: SwitchAnswer)
    | Add(provider: nat, added: bool)
    | Accounts(provider: nat, asked: string, accounts: seq<string>)
    | Chain(provider: nat, chainId: string)
    | Vault(target: string, address: Option<string>)
    | Called(to: string, request: Request, raw: string)
    | Submitted(provider: nat, from: string, to: string, request: Request, hash: Option<string>)
    | Pending(transaction: string)
    | Receipt(transaction: string, success: bool)

  type Log = seq<Observation>

  datatype SwitchAnswer = Switched | UnknownChain | SwitchFailed

  datatype ReceiptAnswer = NotYet | Mined(success: bool) | ReceiptFailed

  const POLLS := 60

  /** The browser with its wallet and the chain behind it. While the client waits, the connected
      account and provider may change. */
  class World {
    var address: Option<string>
    var provider: Option<nat>
    var log: Log

    method Await()
      modifies this`address, this`provider
    {
      address := *;
      provider := *;
    }

    /** Reading the connected account or provider does not wait. */
    method GetAddress() returns (a: Option<string>)
      modifies this`log
      ensures a == address
      ensures log == old(log) + [Account(a)]
    {
      a := address;
      log := log + [Account(a)];
    }

    method GetProvider() returns (p: Option<nat>)
      modifies this`log
      ensures p == provider
      ensures log == old(log) + [Connected(p)]
    {
      p := provider;
      log := log + [Connected(p)];
    }

    method RequestAccounts(p: nat, asked: string) returns (accounts: Option<seq<string>>)
      modifies this
      ensures log == old(log) + [if accounts.Some? then Accounts(p, asked, accounts.value) else Failed]
    {
      Await();
      accounts := *;
      log := log + [if accounts.Some? then Accounts(p, asked, accounts.value) else Failed];
    }

    method RequestChainId(p: nat) returns (chainId: Option<string>)
      modifies this
      ensures log == old(log) + [if chainId.Some? then Chain(p, chainId.value) else Failed]
    {
      Await();
      chainId := *;
      log := log + [if chainId.Some? then Chain(p, chainId.value) else Failed];
    }

    method SwitchChain(p: nat) returns (answer: SwitchAnswer)
      modifies this
      ensures log == old(log) + [Switch(p, answer)]
    {
      Await();
      answer := *;
      log := log + [Switch(p, answer)];
    }

    method AddChain(p: nat) returns (ok: bool)
      modifies this
      ensures log == old(log) + [Add(p, ok)]
    {
      Await();
      ok := *;
      log := log + [Add(p, ok)];
    }

    /** Reading local storage does not wait. */
    method ReadVault(target: string) returns (vault: Option<string>)
      modifies this`log
      ensures log == old(log) + [Vault(target, vault)]
    {
      vault := *;
      log := log + [Vault(target, vault)];
    }

    method SendTransaction(p: nat, from: string, to: string, request: Request) returns (hash: Option<string>)
      modifies this
      ensures log == old(log) + [Submitted(p, from, to, request, hash)]
    {
      Await();
      hash := *;
      log := log + [Submitted(p, from, to, request, hash)];
    }

    method GetReceipt(hash: string) returns (answer: ReceiptAnswer)
      modifies this
      ensures log == old(log) + [match answer
                                 case NotYet => Pending(hash)
                                 case Mined(success) => Receipt(hash, success)
                                 case ReceiptFailed => Failed]
    {
      Await();
      answer := *;
      var seen := match answer
        case NotYet => Pending(hash)
        case Mined(success) => Receipt(hash, success)
        case ReceiptFailed => Failed;
      log := log + [seen];
    }

    method Sleep()
      modifies this
      ensures log == old(log)
    {
      Await();
    }

    method EthCall(to: string, request: Request) returns (raw: Option<string>)
      modifies this
      ensures log == old(log) + [if raw.Some? then Called(to, request, raw.value) else Failed]
    {
      Await();
      raw := *;
      log := log + [if raw.Some? then Called(to, request, raw.value) else Failed];
    }
  }

  // ----- what a log says -----

  predicate Quiet(log: Log, from: nat, to: nat) {
    forall i :: from <= i < to && i < |log| ==> !log[i].Submitted?
  }

  predicate AtMostOne(log: Log, from: nat) {
    forall i :: from <= i < |log| && log[i].Submitted? ==> Quiet(log, i + 1, |log|)
  }

  predicate Lists(accounts: seq<string>, account: string) {
    exists i :: 0 <= i < |accounts| && Lower(accounts[i]) == Lower(account)
  }

  predicate FixedTarget(to: string) {
    Lower(to) == Lower(POOL) || Lower(to) == Lower(USDC) || Lists(COLLECTIONS, to)
  }

  predicate VaultMatches(o: Observation) {
    o.Vault? && o.address.Some? && Lower(o.address.value) == Lower(o.target)
  }

  predicate TargetAllowed(log: Log, i: nat, to: string) {
    FixedTarget(to) ||
    exists k :: 0 <= k < i && k < |log| && VaultMatches(log[k]) && log[k].target == to && Quiet(log, k, i)
  }

  /** The provider connected at the time has listed the account. */
  predicate Listed(log: Log, k: nat, account: string) {
    && 0 < k < |log| && log[k].Accounts? && log[k].asked == account && Lists(log[k].accounts, account)
    && log[k - 1] == Connected(Some(log[k].provider))
  }

  predicate AccountActive(log: Log, i: nat, account: string) {
    exists k :: 0 <= k < i && Listed(log, k, account) && Quiet(log, k, i)
  }

  predicate OnMonad(o: Observation) {
    o.Chain? && Lower(o.chainId) == CHAIN_ID
  }

  predicate ChainActive(log: Log, i: nat) {
    exists k :: 0 <= k < i && k < |log| && OnMonad(log[k]) && Quiet(log, k, i)
  }

  /** Just in front of i, the provider that was then connected was asked to switch to the chain, and to add
      it exactly if it did not know it; then it reported to be on it. */
  predicate MonadEnsured(log: Log, i: nat, p: nat) {
    && 3 <= i <= |log| && OnMonad(log[i - 1]) && log[i - 1].provider == p
    && (|| (log[i - 3] == Connected(Some(p)) && log[i - 2] == Switch(p, Switched))
        || (i >= 4 && log[i - 4] == Connected(Some(p)) && log[i - 3] == Switch(p, UnknownChain) &&
            log[i - 2] == Add(p, true)))
  }

  /** The transaction submitted at i goes to an allowed target, and since the previous submission the
      wallet listed the signer among its accounts and was on the right chain; the provider it goes to
      is the connected one and has just been brought to the chain. */
  predicate Guarded(log: Log, i: nat)
    requires i < |log| && log[i].Submitted?
  {
    && TargetAllowed(log, i, log[i].to)
    && AccountActive(log, i, log[i].from)
    && ChainActive(log, i)
    && MonadEnsured(log, i, log[i].provider)
  }

  /** A transaction with this target and request was submitted and its receipt was a success. */
  predicate Confirmed(log: Log, from: nat, to: nat, target: string, request: Request) {
    exists i, j :: from <= i < j < to && j < |log| && log[i].Submitted? &&
      log[i].to == target && log[i].request == request &&
      log[i].hash.Some? && log[j] == Receipt(log[i].hash.value, true)
  }

  predicate NoReads(log: Log, from: nat, to: nat) {
    forall i :: from <= i < to && i < |log| ==> !log[i].Account?
  }

  /** The last time the connected account was read between from and to, it was this one. */
  predicate LastRead(log: Log, from: nat, to: nat, account: string) {
    exists k :: from <= k < to && k < |log| && log[k] == Account(Some(account)) && NoReads(log, k + 1, to)
  }

  /** Every transaction submitted from here on is signed by the account read last in front of it. */
  predicate SignersRead(log: Log, from: nat) {
    forall i :: from <= i < |log| && log[i].Submitted? ==> LastRead(log, from, i, log[i].from)
  }

  lemma LastReadLater(log: Log, more: Log, from: nat, from': nat, to: nat, account: string)
    requires LastRead(log, from, to, account) && log <= more && from' <= from && to <= |log|
    ensures LastRead(more, from', to, account)
  {
    var k :| from <= k < to && k < |log| && log[k] == Account(Some(account)) && NoReads(log, k + 1, to);
    assert forall i :: 0 <= i < |log| ==> more[i] == log[i];
    assert NoReads(more, k + 1, to);
  }

  lemma SignersCompose(log: Log, more: Log, from: nat)
    requires from <= |log| && log <= more && SignersRead(log, from) && SignersRead(more, |log|)
    ensures SignersRead(more, from)
  {
    forall i | from <= i < |more| && more[i].Submitted? ensures LastRead(more, from, i, more[i].from) {
      if i < |log| {
        assert more[i] == log[i];
        LastReadLater(log, more, from, from, i, log[i].from);
      } else {
        LastReadLater(more, more, |log|, from, i, more[i].from);
      }
    }
  }

  /** An account signs a transaction exactly if it was the last one read in front of it. */
  lemma SignsExactlyIf(log: Log, from: nat, i: nat, account: string)
    requires SignersRead(log, from) && from <= i < |log| && log[i].Submitted?
    ensures log[i].from == account <==> LastRead(log, from, i, account)
  {
    if LastRead(log, from, i, account) {
      var j :| from <= j < i && log[j] == Account(Some(log[i].from)) && NoReads(log, j + 1, i);
      var k :| from <= k < i && log[k] == Account(Some(account)) && NoReads(log, k + 1, i);
      assert j == k;
    }
  }

  lemma GuardedInExtension(log: Log, more: Log, i: nat)
    requires i < |log| && log[i].Submitted? && Guarded(log, i) && log <= more
    ensures Guarded(more, i)
  {
    assert forall k :: 0 <= k < |log| ==> more[k] == log[k];
    if !FixedTarget(log[i].to) {
      var k :| 0 <= k < i && k < |log| && VaultMatches(log[k]) && log[k].target == log[i].to && Quiet(log, k, i);
      assert Quiet(more, k, i);
    }
    var a :| 0 <= a < i && Listed(log, a, log[i].from) && Quiet(log, a, i);
    assert Listed(more, a, log[i].from) && Quiet(more, a, i);
    var c :| 0 <= c < i && c < |log| && OnMonad(log[c]) && Quiet(log, c, i);
    assert Quiet(more, c, i);
  }

  /** The last thing observed is a reason to give up a submission: something is missing or failed, an
      answer is the wrong one, the wallet refused, the transaction failed, or its receipt was asked for
      in vain as often as the client asks. */
  predicate GivesUp(log: Log) {
    |log| > 0 && (Refuses(log[|log| - 1]) || PolledInVain(log))
  }

  predicate Refuses(o: Observation) {
    || o == Account(None) || o == Connected(None) || o.Failed?
    || (o.Switch? && o.answer.SwitchFailed?) || (o.Add? && !o.added)
    || (o.Accounts? && !Lists(o.accounts, o.asked))
    || (o.Chain? && !OnMonad(o))
    || (o.Vault? && !FixedTarget(o.target) && !VaultMatches(o))
    || (o.Submitted? && o.hash.None?)
    || (o.Receipt? && !o.success)
  }

  predicate PolledInVain(log: Log) {
    |log| >= POLLS && forall i :: |log| - POLLS <= i < |log| ==> log[i].Pending?
  }

  // ----- checking and sending -----

  /** The answer to a request to this provider, unless it failed. */
  predicate ListReply(o: Observation, p: nat, from: string) {
    o.Failed? || (o.Accounts? && o.provider == p && o.asked == from)
  }

  predicate ChainReply(o: Observation, p: nat) {
    o.Failed? || (o.Chain? && o.provider == p)
  }

  /** What is asked from a point on, step by step and as far as it goes: the connected provider for its
      accounts, and the connected provider for its chain. */
  predicate ActiveScript(log: Log, at: nat, from: string) {
    && (|log| > at ==> log[at].Connected?)
    && (|log| > at + 1 ==> log[at].current.Some? && ListReply(log[at + 1], log[at].current.value, from))
    && (|log| > at + 2 ==> Listed(log, at + 1, from) && log[at + 2].Connected?)
    && (|log| > at + 3 ==> log[at + 2].current.Some? && ChainReply(log[at + 3], log[at + 2].current.value))
  }

  /** Passes exactly if the connected wallet lists the account and then reports the right chain. */
  method AssertActiveAccount(world: World, from: string) returns (ok: bool)
    modifies world
    ensures old(world.log) <= world.log
    ensures |old(world.log)| < |world.log| <= |old(world.log)| + 4
    ensures ActiveScript(world.log, |old(world.log)|, from)
    ensures ok <==> |world.log| == |old(world.log)| + 4 && OnMonad(world.log[|old(world.log)| + 3])
    ensures !ok ==> GivesUp(world.log)
  {
    var p := world.GetProvider();
    if p.None? {
      return false;
    }
    var accounts := world.RequestAccounts(p.value, from);
    if accounts.None? || !Lists(accounts.value, from) {
      return false;
    }
    p := world.GetProvider();
    if p.None? {
      return false;
    }
    var chainId := world.RequestChainId(p.value);
    return chainId.Some? && Lower(chainId.value) == CHAIN_ID;
  }

  /** What is asked of a provider to bring it to the chain, as far as it goes: to switch, then to add the
      chain exactly if it does not know it, and only then which chain it is on. */
  predicate MonadScript(log: Log, at: nat, p: nat) {
    && |log| > at && log[at].Switch? && log[at].provider == p
    && (|log| > at + 1 ==>
          match log[at].answer
          case Switched => ChainReply(log[at + 1], p) && |log| == at + 2
          case UnknownChain =>
            && log[at + 1].Add? && log[at + 1].provider == p
            && (|log| > at + 2 ==> log[at + 1].added && ChainReply(log[at + 2], p) && |log| == at + 3)
          case SwitchFailed => false)
  }

  method EnsureMonad(world: World, p: nat) returns (ok: bool)
    modifies world
    ensures old(world.log) <= world.log
    ensures MonadScript(world.log, |old(world.log)|, p)
    ensures ok <==> OnMonad(world.log[|world.log| - 1])
    ensures !ok ==> GivesUp(world.log)
  {
    var answer := world.SwitchChain(p);
    match answer {
      case Switched =>
      case UnknownChain =>
        var added := world.AddChain(p);
        if !added {
          return false;
        }
      case SwitchFailed => return false;
    }
    var chainId := world.RequestChainId(p);
    return chainId.Some? && Lower(chainId.value) == CHAIN_ID;
  }

  /** Asks up to 60 times, and passes exactly if the last answer is a successful receipt. */
  method WaitReceipt(world: World, hash: string) returns (ok: bool)
    modifies world
    ensures |old(world.log)| < |world.log| <= |old(world.log)| + POLLS && old(world.log) <= world.log
    ensures Quiet(world.log, |old(world.log)|, |world.log|)
    ensures forall i :: |old(world.log)| <= i < |world.log| - 1 ==> world.log[i] == Pending(hash)
    ensures ok <==> world.log[|world.log| - 1] == Receipt(hash, true)
    ensures !ok ==> GivesUp(world.log)
  {
    ghost var base := |world.log|;
    for i := 0 to POLLS
      invariant |world.log| == base + i && old(world.log) <= world.log
      invariant forall k :: base <= k < |world.log| ==> world.log[k] == Pending(hash)
    {
      var answer := world.GetReceipt(hash);
      match answer {
        case Mined(success) => return success;
        case ReceiptFailed => return false;
        case NotYet =>
      }
      world.Sleep();
    }
    return false;
  }

  /** The transaction submitted at i, and no other from the start on: this one, signed by the account read
      last in front of it, and guarded. */
  predicate SubmitsAt(log: Log, start: nat, i: nat, to: string, request: Request) {
    && start <= i < |log| && log[i].Submitted? && log[i].to == to && log[i].request == request
    && Guarded(log, i) && LastRead(log, start, i, log[i].from)
    && Quiet(log, start, i) && Quiet(log, i + 1, |log|)
  }

  /** At most one transaction is submitted from here on, this one, by whatever account was read last. */
  predicate SubmitsAs(log: Log, start: nat, to: string, request: Request) {
    Quiet(log, start, |log|) || exists i :: start <= i < |log| && SubmitsAt(log, start, i, to, request)
  }

  /** At most one transaction is submitted from here on, this one, by this account. */
  predicate Submits(log: Log, start: nat, account: Option<string>, to: string, request: Request) {
    || Quiet(log, start, |log|)
    || exists i :: start <= i < |log| && SubmitsAt(log, start, i, to, request) && account == Some(log[i].from)
  }

  /** The same, said of every submission. */
  predicate SubmitsEach(log: Log, start: nat, to: string, request: Request) {
    && AtMostOne(log, start) && SignersRead(log, start)
    && forall i :: start <= i < |log| && log[i].Submitted? ==>
         log[i].to == to && log[i].request == request && Guarded(log, i)
  }

  lemma SubmitsMeans(log: Log, start: nat, to: string, request: Request)
    requires SubmitsAs(log, start, to, request)
    ensures SubmitsEach(log, start, to, request)
  {
    if !Quiet(log, start, |log|) {
      var j :| start <= j < |log| && SubmitsAt(log, start, j, to, request);
      forall i | start <= i < |log| && log[i].Submitted? ensures i == j {
        assert !(i < j) && !(j < i);
      }
    }
  }

  lemma SubmitsIsBy(log: Log, start: nat, account: Option<string>, to: string, request: Request)
    requires Submits(log, start, account, to, request)
    ensures SubmitsAs(log, start, to, request)
    ensures forall i :: start <= i < |log| && log[i].Submitted? ==> account == Some(log[i].from)
  {
    if !Quiet(log, start, |log|) {
      var j :| start <= j < |log| && SubmitsAt(log, start, j, to, request) && account == Some(log[j].from);
      forall i | start <= i < |log| && log[i].Submitted? ensures i == j {
        assert !(i < j) && !(j < i);
      }
    }
  }

  /** All that is asked in front of a submission, as far as it goes: the two questions about the account,
      the vault, and then the connected provider is brought to the chain. */
  predicate CheckScript(log: Log, at: nat, from: string, to: string) {
    && ActiveScript(log, at, from)
    && (|log| > at + 4 ==> OnMonad(log[at + 3]) && log[at + 4].Vault? && log[at + 4].target == to)
    && (|log| > at + 5 ==> (FixedTarget(to) || VaultMatches(log[at + 4])) && log[at + 5].Connected?)
    && (|log| > at + 6 ==> log[at + 5].current.Some? && MonadScript(log, at + 6, log[at + 5].current.value))
  }

  /** The account was read, and if there was one the checks were made, as far as they go. */
  predicate StopsInChecks(log: Log, at: nat, account: Option<string>, to: string) {
    && |log| > at && log[at] == Account(account)
    && (if account.None? then |log| == at + 1 else CheckScript(log, at + 1, account.value, to))
  }

  lemma StoppedSubmitsNothing(log: Log, at: nat, account: Option<string>, to: string, request: Request)
    requires |log| > at && log[at] == Account(account)
    requires if account.None? then |log| == at + 1 else CheckScript(log, at + 1, account.value, to)
    ensures StopsInChecks(log, at, account, to) && Submits(log, at, account, to, request)
    ensures account.None? ==> GivesUp(log)
  {
    if account.Some? {
      ChecksAreQuiet(log, at + 1, account.value, to);
    }
  }

  /** It has gone all the way. */
  predicate ChecksPassed(log: Log, at: nat, from: string, to: string, p: nat) {
    CheckScript(log, at, from, to) && |log| > at + 7 && log[at + 5] == Connected(Some(p)) && OnMonad(log[|log| - 1])
  }

  lemma ChecksAreQuiet(log: Log, at: nat, from: string, to: string)
    requires CheckScript(log, at, from, to)
    ensures Quiet(log, at, |log|) && NoReads(log, at, |log|)
  {
  }

  lemma CheckedIsGuarded(checked: Log, log: Log, at: nat)
    requires checked < log && log[|checked|].Submitted?
    requires ChecksPassed(checked, at, log[|checked|].from, log[|checked|].to, log[|checked|].provider)
    ensures Guarded(log, |checked|)
  {
    var i := |checked|;
    ChecksAreQuiet(checked, at, log[i].from, log[i].to);
    assert forall k :: 0 <= k < i ==> log[k] == checked[k];
    assert Listed(log, at + 1, log[i].from) && Quiet(log, at + 1, i);
    assert Quiet(log, at + 3, i) && Quiet(log, at + 4, i);
  }

  /** What comes after the one submission does not submit. */
  lemma SubmissionSealed(checked: Log, log: Log, base: nat)
    requires checked < log && log[|checked|].Submitted? && Quiet(log, |checked| + 1, |log|)
    requires base < |checked| && checked[base] == Account(Some(log[|checked|].from))
    requires ChecksPassed(checked, base + 1, log[|checked|].from, log[|checked|].to, log[|checked|].provider)
    ensures Submits(log, base, Some(log[|checked|].from), log[|checked|].to, log[|checked|].request)
  {
    var i := |checked|;
    CheckedIsGuarded(checked, log, base + 1);
    ChecksAreQuiet(checked, base + 1, log[i].from, log[i].to);
    assert forall k :: 0 <= k < i ==> log[k] == checked[k];
    assert NoReads(log, base + 1, i);
    assert SubmitsAt(log, base, i, log[i].to, log[i].request);
  }

  /** The checks in front of a submission, and the provider it will go to. */
  method PassChecks(world: World, from: string, to: string) returns (p: Option<nat>)
    modifies world
    ensures |old(world.log)| < |world.log| && old(world.log) <= world.log
    ensures CheckScript(world.log, |old(world.log)|, from, to)
    ensures p.Some? ==> ChecksPassed(world.log, |old(world.log)|, from, to, p.value)
    ensures p.None? ==> GivesUp(world.log)
  {
    var active := AssertActiveAccount(world, from);
    if !active {
      return None;
    }
    var vault := world.ReadVault(to);
    if !FixedTarget(to) && !(vault.Some? && Lower(vault.value) == Lower(to)) {
      return None;
    }
    p := world.GetProvider();
    if p.Some? {
      var ready := EnsureMonad(world, p.value);
      if !ready {
        return None;
      }
    }
  }

  /** Submits a transaction and waits for its receipt. */
  method Deliver(world: World, p: nat, from: string, to: string, request: Request) returns (hash: Option<string>)
    modifies world
    ensures |world.log| > |old(world.log)| && old(world.log) <= world.log
    ensures Quiet(world.log, |old(world.log)| + 1, |world.log|)
    ensures var o := world.log[|old(world.log)|];
            && o.Submitted? && o.provider == p && o.from == from && o.to == to && o.request == request
            && (hash.Some? ==> o.hash == hash && world.log[|world.log| - 1] == Receipt(hash.value, true))
    ensures hash.None? ==> GivesUp(world.log)
  {
    hash := world.SendTransaction(p, from, to, request);
    if hash.Some? {
      var ok := WaitReceipt(world, hash.value);
      if !ok {
        hash := None;
      }
    }
  }

  /** Submits at most one transaction, the given one from the address connected at the call, and it is
      guarded. A hash is returned after a successful receipt, and otherwise the last thing observed is a
      reason to give up. */
  method SendTx(world: World, to: string, request: Request) returns (hash: Option<string>)
    modifies world
    ensures old(world.log) <= world.log
    ensures Submits(world.log, |old(world.log)|, old(world.address), to, request)
    ensures hash.Some? ==> Confirmed(world.log, |old(world.log)|, |world.log|, to, request)
    ensures hash.None? ==> |world.log| > |old(world.log)| && GivesUp(world.log)
    ensures !Quiet(world.log, |old(world.log)|, |world.log|) ||
            StopsInChecks(world.log, |old(world.log)|, old(world.address), to)
  {
    hide Submits, GivesUp, ChecksPassed, CheckScript, StopsInChecks;
    ghost var base := |world.log|;
    var from := world.GetAddress();
    if from.None? {
      StoppedSubmitsNothing(world.log, base, None, to, request);
      return None;
    }
    var p := PassChecks(world, from.value, to);
    ghost var checked := world.log;
    if p.None? {
      StoppedSubmitsNothing(checked, base, from, to, request);
      return None;
    }
    hash := Deliver(world, p.value, from.value, to, request);
    ghost var log := world.log;
    SubmissionSealed(checked, log, base);
  }

  lemma ConfirmedFrom(log: Log, from: nat, from': nat, target: string, request: Request)
    requires Confirmed(log, from, |log|, target, request) && from' <= from
    ensures Confirmed(log, from', |log|, target, request)
  {
    var i, j :| from <= i < j < |log| && log[i].Submitted? && log[i].to == target && log[i].request == request &&
      log[i].hash.Some? && log[j] == Receipt(log[i].hash.value, true);
  }

  /** A submission seen from an earlier point. */
  lemma SubmitsFrom(log: Log, start: nat, earlier: nat, account: Option<string>, to: string, request: Request)
    requires earlier <= start <= |log| && Quiet(log, earlier, start) && Submits(log, start, account, to, request)
    ensures Submits(log, earlier, account, to, request)
    ensures Confirmed(log, start, |log|, to, request) ==> Confirmed(log, earlier, |log|, to, request)
  {
    if i :| start <= i < |log| && SubmitsAt(log, start, i, to, request) && account == Some(log[i].from) {
      LastReadLater(log, log, start, earlier, i, log[i].from);
      assert SubmitsAt(log, earlier, i, to, request);
    }
    if Confirmed(log, start, |log|, to, request) {
      ConfirmedFrom(log, start, earlier, to, request);
    }
  }

  /** A call whose data names the connected account: it is read for the data and again for the signature,
      with nothing in between. */
  method SendOwn(world: World, to: string, request: string -> Request)
    returns (hash: Option<string>, ghost account: string)
    modifies world
    ensures old(world.log) <= world.log
    ensures Submits(world.log, |old(world.log)|, Some(account), to, request(account))
    ensures hash.Some? ==> Confirmed(world.log, |old(world.log)|, |world.log|, to, request(account))
    ensures hash.None? ==> |world.log| > |old(world.log)| && GivesUp(world.log)
  {
    hide GivesUp, SubmitsAt, StopsInChecks;
    ghost var base := |world.log|;
    var current := world.GetAddress();
    if current.None? {
      assert GivesUp(world.log) by {
        StoppedSubmitsNothing(world.log, base, None, to, request(""));
      }
      return None, "";
    }
    account := current.value;
    assert current == Some(account);
    hash := SendTx(world, to, request(current.value));
    SubmitsFrom(world.log, base + 1, base, Some(account), to, request(account));
  }
}
