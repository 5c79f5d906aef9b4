/** What becomes of a WalletConnect attempt that the user gives up on. */
module WalletStaleness {
  import opened Wrappers
  import opened WalletState
  import opened WalletProtocol
  import opened WalletInvariants

  /** The state in front of the event with index k. */
  function Before(s: System, es: seq<Event>, k: nat): System
    requires k <= |es|
  {
    Run(s, es[..k])
  }

  predicate IsStepOf(e: Event, id: nat) {
    (e.Resume? || e.Reject?) && e.id == id
  }

  /** The parts of the wallet that make up a connection. */
  predicate SameConnection(w: Wallet, w': Wallet) {
    && w'.provider == w.provider && w'.address == w.address && w'.kind == w.kind && w'.rdns == w.rdns
    && w'.bound == w.bound && w'.handlers == w.handlers && w'.emitted == w.emitted
  }

  /** The attempt has ended, has no write to the connection left, or was overtaken before its second
      generation check. */
  predicate Spent(s: System, id: nat) {
    && id < s.nextId
    && (id in s.ops ==>
          && s.ops[id].IsAttempt() && !s.ops[id].AttemptAccounts?
          && (s.ops[id].Unchecked() ==> s.ops[id].gen < s.w.generation))
  }

  predicate Commits(s: System, e: Event, id: nat) {
    && IsStepOf(e, id) && id in s.ops && s.ops[id].IsAttempt() && !s.ops[id].AttemptMonad?
    && id in Next(s, e).ops && Next(s, e).ops[id].AttemptMonad?
  }

  lemma RunStep(s: System, es: seq<Event>, k: nat)
    requires k < |es|
    ensures Before(s, es, k + 1) == Next(Before(s, es, k), es[k])
  {
    assert es[..k + 1][..k] == es[..k];
  }

  lemma {:induction false} RunKeepsOrder(s: System, es: seq<Event>, k: nat)
    requires AttemptsOrdered(s) && k <= |es|
    ensures AttemptsOrdered(Before(s, es, k))
  {
    if k > 0 {
      RunKeepsOrder(s, es, k - 1);
      RunStep(s, es, k - 1);
      AttemptsStep(Before(s, es, k - 1), es[k - 1]);
    }
  }

  /** Events of others leave a call in flight as it is; ids are never reused. */
  lemma OthersLeaveAlone(s: System, e: Event, id: nat)
    requires AttemptsOrdered(s) && id < s.nextId && !IsStepOf(e, id)
    ensures var s' := Next(s, e);
            && id < s'.nextId && (id in s'.ops <==> id in s.ops) && (id in s.ops ==> s'.ops[id] == s.ops[id])
  {
    match e
    case Resume(i, a) =>
      if i in s.ops {
        ResumeShape(s, i, a);
      }
    case _ =>
  }

  /** Generations only grow: by one on an abort and on a start that finds the lock free. */
  lemma GenerationStep(s: System, e: Event)
    requires AttemptsOrdered(s)
    ensures Next(s, e).w.generation ==
            s.w.generation + if e.AbortWalletConnect? || (e.StartWalletConnect? && !s.w.locked) then 1 else 0
  {
    match e
    case Resume(id, a) =>
      if id in s.ops {
        ResumeShape(s, id, a);
      }
    case AccountsEvent(p, accounts) => DeliveryKeepsAttempts(s.w, p, accounts);
    case ChainEvent(p) => DeliveryKeepsAttempts(s.w, p, []);
    case DisconnectEvent(p) => DeliveryKeepsAttempts(s.w, p, []);
    case _ =>
  }

  lemma SpentStep(s: System, e: Event, id: nat)
    requires AttemptsOrdered(s) && Spent(s, id)
    ensures Spent(Next(s, e), id)
    ensures IsStepOf(e, id) ==> SameConnection(s.w, Next(s, e).w)
    ensures !Commits(s, e, id)
  {
    GenerationStep(s, e);
    if !IsStepOf(e, id) {
      OthersLeaveAlone(s, e, id);
    }
  }

  /** A spent attempt never again touches the connection, however the run goes on; in particular an
      attempt aborted before its second check never does. */
  lemma {:induction false} SpentAttemptIsInert(s: System, es: seq<Event>, id: nat, from: nat, k: nat)
    requires AttemptsOrdered(s) && from <= k <= |es| && Spent(Before(s, es, from), id)
    ensures Spent(Before(s, es, k), id)
    ensures k < |es| ==> !Commits(Before(s, es, k), es[k], id)
    ensures k < |es| && IsStepOf(es[k], id) ==> SameConnection(Before(s, es, k).w, Before(s, es, k + 1).w)
  {
    if k > from {
      SpentAttemptIsInert(s, es, id, from, k - 1);
      RunKeepsOrder(s, es, k - 1);
      RunStep(s, es, k - 1);
      SpentStep(Before(s, es, k - 1), es[k - 1], id);
    }
    if k < |es| {
      RunKeepsOrder(s, es, k);
      RunStep(s, es, k);
      SpentStep(Before(s, es, k), es[k], id);
    }
  }

  /** A step keeps an attempt current exactly if it is not an abort, and never makes it current. */
  lemma CurrencyStep(s: System, e: Event, id: nat)
    requires AttemptsOrdered(s) && id in s.ops && s.ops[id].IsAttempt() && id in Next(s, e).ops
    ensures Next(s, e).ops[id].IsAttempt()
    ensures Current(Next(s, e), id) <==> Current(s, id) && !e.AbortWalletConnect?
  {
    GenerationStep(s, e);
    if !IsStepOf(e, id) {
      OthersLeaveAlone(s, e, id);
    } else if e.Resume? {
      ResumeShape(s, id, e.answer);
    }
  }

  lemma {:induction false} IdsStayIssued(s: System, es: seq<Event>, k: nat, id: nat)
    requires AttemptsOrdered(s) && id < s.nextId && k <= |es|
    ensures id < Before(s, es, k).nextId
  {
    if k > 0 {
      IdsStayIssued(s, es, k - 1, id);
      RunStep(s, es, k - 1);
      RunKeepsOrder(s, es, k - 1);
      var t := Before(s, es, k - 1);
      if !IsStepOf(es[k - 1], id) {
        OthersLeaveAlone(t, es[k - 1], id);
      } else if es[k - 1].Resume? && id in t.ops {
        ResumeShape(t, id, es[k - 1].answer);
      }
    }
  }

  /** The step with index k, seen from an attempt that is still in flight after it. */
  lemma CurrencyAt(s: System, es: seq<Event>, k: nat, id: nat)
    requires AttemptsOrdered(s) && id < s.nextId && k < |es| && id in Before(s, es, k + 1).ops
    ensures id in Before(s, es, k).ops
    ensures Before(s, es, k).ops[id].IsAttempt() ==> Before(s, es, k + 1).ops[id].IsAttempt()
    ensures Before(s, es, k).ops[id].IsAttempt() ==>
              (Current(Before(s, es, k + 1), id) <==> Current(Before(s, es, k), id) && !es[k].AbortWalletConnect?)
  {
    var t := Before(s, es, k);
    RunKeepsOrder(s, es, k);
    IdsStayIssued(s, es, k, id);
    RunStep(s, es, k);
    if !IsStepOf(es[k], id) {
      OthersLeaveAlone(t, es[k], id);
    }
    if t.ops[id].IsAttempt() {
      CurrencyStep(t, es[k], id);
    }
  }

  /** An attempt in flight is stale exactly if the user aborted since it was current: no other event,
      and no number of further attempts, can overtake it. */
  lemma {:induction false} StaleExactlyIfAborted(s: System, es: seq<Event>, k: nat, id: nat)
    requires AttemptsOrdered(s) && Current(s, id) && k <= |es| && id in Before(s, es, k).ops
    ensures Before(s, es, k).ops[id].IsAttempt()
    ensures Current(Before(s, es, k), id) <==> forall i :: 0 <= i < k ==> !es[i].AbortWalletConnect?
  {
    if k > 0 {
      CurrencyAt(s, es, k - 1, id);
      StaleExactlyIfAborted(s, es, k - 1, id);
    }
  }

  /** An abort spends an attempt unless it is waiting for the answer to eth_accounts. */
  lemma AbortSpends(s: System, e: Event, id: nat)
    requires AttemptsOrdered(s) && e.AbortWalletConnect?
    requires id in s.ops && s.ops[id].IsAttempt() && !s.ops[id].AttemptAccounts?
    ensures Spent(Next(s, e), id)
  {
  }

  lemma {:induction false} InFlightEarlier(s: System, es: seq<Event>, id: nat, k: nat, j: nat)
    requires AttemptsOrdered(s) && id < s.nextId && k <= j <= |es| && id in Before(s, es, j).ops
    ensures id in Before(s, es, k).ops
  {
    if k < j {
      CurrencyAt(s, es, j - 1, id);
      InFlightEarlier(s, es, id, k, j - 1);
    }
  }

  /** When an attempt commits, it is still the current one exactly if the user has not aborted since
      it started; every abort it survived hit it while it was waiting for eth_accounts, so a commit
      that uses accounts the provider already showed is always current. */
  lemma CommitsAreCurrentUnlessAborted(s: System, es: seq<Event>, id: nat, j: nat)
    requires AttemptsOrdered(s) && Current(s, id) && j < |es| && Commits(Before(s, es, j), es[j], id)
    ensures Current(Before(s, es, j), id) <==> forall k :: 0 <= k < j ==> !es[k].AbortWalletConnect?
    ensures forall k :: 0 <= k < j && es[k].AbortWalletConnect? ==>
              id in Before(s, es, k).ops && Before(s, es, k).ops[id].AttemptAccounts?
    ensures !Before(s, es, j).ops[id].AttemptAccounts? ==> Current(Before(s, es, j), id)
  {
    StaleExactlyIfAborted(s, es, j, id);
    forall k | 0 <= k < j && es[k].AbortWalletConnect?
      ensures id in Before(s, es, k).ops && Before(s, es, k).ops[id].AttemptAccounts?
    {
      InFlightEarlier(s, es, id, k, j);
      StaleExactlyIfAborted(s, es, k, id);
      if !Before(s, es, k).ops[id].AttemptAccounts? {
        RunKeepsOrder(s, es, k);
        AbortSpends(Before(s, es, k), es[k], id);
        RunStep(s, es, k);
        SpentAttemptIsInert(s, es, id, k + 1, j);
      }
    }
  }

  /** From every state in which an attempt waits for eth_accounts: abort, then answer. The attempt is
      stale in between and is installed all the same. */
  lemma AbortDuringAccountsRequestConnects(s: System, id: nat, session: bool, a: Answer)
    requires AttemptsOrdered(s) && id in s.ops && s.ops[id].AttemptAccounts? && |a.accounts| > 0
    ensures var aborted := Next(s, AbortWalletConnect(session));
            var answered := Next(aborted, Resume(id, a));
            && !Current(aborted, id)
            && answered.w.provider == Some(s.ops[id].wc) && answered.w.address == Some(a.accounts[0])
            && answered.w.kind == Some(WalletConnect)
  {
  }

  lemma {:induction false} Step(s: System, es: seq<Event>, e: Event)
    ensures Run(s, es + [e]) == Next(Run(s, es), e)
  {
    assert (es + [e])[..|es|] == es;
  }

  /** Such a state is reached by an attempt that finds a live session without accounts. */
  lemma AccountsRequestIsReachable()
    ensures var a := Answer(true, [], 7, []);
            Run(Load(None, None), [StartWalletConnect(false)] + [Resume(0, a)] + [Resume(0, a)] + [Resume(0, a)]).ops
            == map[0 := AttemptAccounts(1, 7)]
  {
    var a := Answer(true, [], 7, []);
    var s := Load(None, None);
    Step(s, [], StartWalletConnect(false));
    assert [] + [StartWalletConnect(false)] == [StartWalletConnect(false)];
    Step(s, [StartWalletConnect(false)], Resume(0, a));
    Step(s, [StartWalletConnect(false)] + [Resume(0, a)], Resume(0, a));
    Step(s, [StartWalletConnect(false)] + [Resume(0, a)] + [Resume(0, a)], Resume(0, a));
    var s1 := Next(s, StartWalletConnect(false));
    assert s1.ops == map[0 := AttemptLoad(1)];
    var s2 := Next(s1, Resume(0, a));
    assert s2.ops == map[0 := AttemptInit(1)];
    var s3 := Next(s2, Resume(0, a));
    assert s3.ops == map[0 := AttemptGot(1, 7)];
  }
}
