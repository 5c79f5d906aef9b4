/** Supplying, borrowing and repaying: what each flow has seen by the time it submits a transaction. */
module PoolFlows {
  import opened Wrappers
  import opened AbiWords
  import opened CallData
  import opened PoolClient
  import opened UsdcAmounts

  /** An amount as the form hands it over. */
  datatype Amount = Missing | NotANumber | Number(value: real)

  predicate Blank(raw: string) {
    raw == "" || raw == "0x"
  }

  /** The last 40 characters, as slice(-40) takes them. */
  function Last40(s: string): string {
    if |s| <= 40 then s else s[|s| - 40..]
  }

  // ----- answers that let a flow go on -----

  predicate AllowanceAnswer(o: Observation, token: string, owner: string, spender: string, amount: int) {
    && o.Called? && o.to == token && o.request == Allowance(owner, spender)
    && (if Blank(o.raw) then amount <= 0 else Word(o.raw, 0).Some? && amount <= Word(o.raw, 0).value)
  }

  predicate ApprovedAnswer(o: Observation, nft: string, tokenId: int) {
    && o.Called? && o.to == nft && o.request == GetApproved(tokenId)
    && !Blank(o.raw) && Lower("0x" + Last40(o.raw)) == Lower(POOL)
  }

  predicate OwnerAnswer(o: Observation, nft: string, tokenId: int, owner: string) {
    && o.Called? && o.to == nft && o.request == OwnerOf(tokenId)
    && !Blank(o.raw) && Lower(AddrWord(o.raw, 0)) == Lower(owner)
  }

  predicate QuoteAnswer(o: Observation, nft: string, units: int) {
    && o.Called? && o.to == POOL && o.request == CollateralData(nft, USDC)
    && !Blank(o.raw) && Word(o.raw, 3).Some? && units <= Word(o.raw, 3).value
  }

  predicate DebtAnswer(o: Observation, nft: string, tokenId: int, debt: nat) {
    && o.Called? && o.to == POOL && o.request == DebtData(nft, tokenId)
    && !Blank(o.raw) && Word(o.raw, 0).Some? && Word(o.raw, 0).value > 0 && Word(o.raw, 3) == Some(debt) && debt > 0
  }

  // ----- answers that call for an approval -----

  predicate ShortAnswer(o: Observation, token: string, owner: string, spender: string, amount: int) {
    && o.Called? && o.to == token && o.request == Allowance(owner, spender)
    && (if Blank(o.raw) then amount > 0 else Word(o.raw, 0).Some? && amount > Word(o.raw, 0).value)
  }

  predicate UnapprovedAnswer(o: Observation, nft: string, tokenId: int) {
    && o.Called? && o.to == nft && o.request == GetApproved(tokenId)
    && (Blank(o.raw) || Lower("0x" + Last40(o.raw)) != Lower(POOL))
  }

  // ----- answers that stop a flow -----

  predicate NoAllowanceAnswer(o: Observation, token: string) {
    o.Called? && o.to == token && o.request.Allowance? && !Blank(o.raw) && Word(o.raw, 0).None?
  }

  predicate NotOwnerAnswer(o: Observation, nft: string, tokenId: int, owner: string) {
    && o.Called? && o.to == nft && o.request == OwnerOf(tokenId)
    && (Blank(o.raw) || Lower(AddrWord(o.raw, 0)) != Lower(owner))
  }

  predicate QuoteReadable(raw: string) {
    !Blank(raw) && Word(raw, 1).Some? && Word(raw, 3).Some? && Word(raw, 4).Some? && Word(raw, 5).Some?
  }

  predicate NoQuoteAnswer(o: Observation, nft: string, units: int) {
    && o.Called? && o.to == POOL && o.request == CollateralData(nft, USDC)
    && (!QuoteReadable(o.raw) || units > Word(o.raw, 3).value)
  }

  predicate DebtReadable(raw: string) {
    !Blank(raw) && Word(raw, 0).Some? && Word(raw, 2).Some? && Word(raw, 3).Some? && Word(raw, 4).Some?
  }

  predicate NoDebtAnswer(o: Observation, nft: string, tokenId: int) {
    && o.Called? && o.to == POOL && o.request == DebtData(nft, tokenId)
    && (!DebtReadable(o.raw) || Word(o.raw, 0).value == 0 || Word(o.raw, 3).value == 0)
  }

  // ----- the order of the questions, as far as a flow gets -----

  predicate Asks(o: Observation, to: string, request: Request) {
    o.Failed? || (o.Called? && o.to == to && o.request == request)
  }

  /** First the connected account is read, and next its allowance is asked for. */
  predicate AllowanceScript(log: Log, at: nat, token: string, spender: string) {
    && |log| > at && log[at].Account?
    && (|log| > at + 1 ==>
          log[at].address.Some? && Asks(log[at + 1], token, Allowance(log[at].address.value, spender)))
  }

  /** The account, the owner of the token, the quote, and then who is approved for the token. */
  predicate BorrowScript(log: Log, at: nat, nft: string, tokenId: int) {
    && |log| > at && log[at].Account?
    && (|log| > at + 1 ==> log[at].address.Some? && Asks(log[at + 1], nft, OwnerOf(tokenId)))
    && (|log| > at + 2 ==> Asks(log[at + 2], POOL, CollateralData(nft, USDC)))
    && (|log| > at + 3 ==> Asks(log[at + 3], nft, GetApproved(tokenId)))
  }

  /** The debt, and then the account and its allowance. */
  predicate RepayScript(log: Log, at: nat, nft: string, tokenId: int) {
    && |log| > at && Asks(log[at], POOL, DebtData(nft, tokenId))
    && (|log| > at + 1 ==> AllowanceScript(log, at + 1, USDC, POOL))
  }

  // ----- what has been seen -----

  /** Between from and to the allowance was read and found sufficient, or an approval of the amount was
      confirmed. */
  predicate AllowanceSettled(log: Log, from: nat, to: nat, token: string, owner: string, spender: string, amount: int) {
    || (exists k :: from <= k < to && k < |log| && AllowanceAnswer(log[k], token, owner, spender, amount))
    || Confirmed(log, from, to, token, Approve(spender, amount))
  }

  predicate AllowanceShort(log: Log, from: nat, to: nat, token: string, owner: string, spender: string, amount: int) {
    exists k :: from <= k < to && k < |log| && ShortAnswer(log[k], token, owner, spender, amount)
  }

  predicate NftUnapproved(log: Log, from: nat, to: nat, nft: string, tokenId: int) {
    exists k :: from <= k < to && k < |log| && UnapprovedAnswer(log[k], nft, tokenId)
  }

  predicate NftSettled(log: Log, from: nat, to: nat, nft: string, tokenId: int) {
    || (exists k :: from <= k < to && k < |log| && ApprovedAnswer(log[k], nft, tokenId))
    || Confirmed(log, from, to, nft, Approve(POOL, tokenId))
  }

  predicate OwnershipSeen(log: Log, from: nat, to: nat, nft: string, tokenId: int, owner: string) {
    exists k :: from <= k < to && k < |log| && OwnerAnswer(log[k], nft, tokenId, owner)
  }

  predicate QuoteSeen(log: Log, from: nat, to: nat, nft: string, units: int) {
    exists k :: from <= k < to && k < |log| && QuoteAnswer(log[k], nft, units)
  }

  lemma SettledLater(log: Log, more: Log, from: nat, to: nat, to': nat,
                     token: string, owner: string, spender: string, amount: int)
    requires AllowanceSettled(log, from, to, token, owner, spender, amount) && log <= more && to <= to' && to <= |log|
    ensures AllowanceSettled(more, from, to', token, owner, spender, amount)
  {
    if k :| from <= k < to && k < |log| && AllowanceAnswer(log[k], token, owner, spender, amount) {
      assert more[k] == log[k];
    } else {
      ConfirmedLater(log, more, from, to, to', token, Approve(spender, amount));
    }
  }

  lemma NftSettledLater(log: Log, more: Log, from: nat, to: nat, to': nat, nft: string, tokenId: int)
    requires NftSettled(log, from, to, nft, tokenId) && log <= more && to <= to' && to <= |log|
    ensures NftSettled(more, from, to', nft, tokenId)
  {
    if k :| from <= k < to && k < |log| && ApprovedAnswer(log[k], nft, tokenId) {
      assert more[k] == log[k];
    } else {
      ConfirmedLater(log, more, from, to, to', nft, Approve(POOL, tokenId));
    }
  }

  lemma ConfirmedLater(log: Log, more: Log, from: nat, to: nat, to': nat, target: string, request: Request)
    requires Confirmed(log, from, to, target, request) && log <= more && to <= to' && to <= |log|
    ensures Confirmed(more, from, to', target, request)
  {
    var i, j :| from <= i < j < to && j < |log| && log[i].Submitted? &&
      log[i].to == target && log[i].request == request &&
      log[i].hash.Some? && log[j] == Receipt(log[i].hash.value, true);
    assert more[i] == log[i] && more[j] == log[j];
  }

  // ----- approvals -----

  /** At this point the connected account is read, and next the allowance that it has given. */
  predicate AllowanceReadFor(log: Log, at: nat, token: string, owner: string, spender: string) {
    && at + 1 < |log| && log[at] == Account(Some(owner))
    && log[at + 1].Called? && log[at + 1].to == token && log[at + 1].request == Allowance(owner, spender)
  }

  /** Something is submitted only if the allowance of the connected account, read first, is short. */
  predicate OnlyIfShort(log: Log, start: nat, token: string, owner: Option<string>, spender: string, amount: int) {
    || Quiet(log, start, |log|)
    || (owner.Some? && AllowanceReadFor(log, start, token, owner.value, spender) &&
        ShortAnswer(log[start + 1], token, owner.value, spender, amount))
  }

  /** At most a guarded approval of the amount is submitted from here on, and only if the allowance of the
      connected account, read first, is short of it. */
  predicate ApprovesIfShort(log: Log, start: nat, token: string, owner: Option<string>, spender: string, amount: int) {
    SubmitsAs(log, start, token, Approve(spender, amount)) && OnlyIfShort(log, start, token, owner, spender, amount)
  }

  predicate OnlyIfUnapproved(log: Log, start: nat, nft: string, tokenId: int) {
    Quiet(log, start, |log|) || (start < |log| && UnapprovedAnswer(log[start], nft, tokenId))
  }

  predicate ApprovesIfUnapproved(log: Log, start: nat, nft: string, tokenId: int) {
    SubmitsAs(log, start, nft, Approve(POOL, tokenId)) && OnlyIfUnapproved(log, start, nft, tokenId)
  }

  lemma SubmitsAfter(read: Log, log: Log, base: nat, account: Option<string>, to: string, request: Request)
    requires base <= |read| && read <= log && Quiet(read, base, |read|)
    requires Submits(log, |read|, account, to, request)
    ensures SubmitsAs(log, base, to, request)
  {
    assert forall i :: base <= i < |read| ==> log[i] == read[i];
    SubmitsFrom(log, |read|, base, account, to, request);
  }

  /** The allowance of the connected account, or nothing if there is no account or no readable answer. An
      empty answer counts as no allowance. */
  method ReadAllowance(world: World, token: string, spender: string, amount: int) returns (current: Option<nat>)
    modifies world
    ensures old(world.log) <= world.log && Quiet(world.log, |old(world.log)|, |world.log|)
    ensures current.Some? ==>
              && old(world.address).Some? && |world.log| == |old(world.log)| + 2
              && AllowanceReadFor(world.log, |old(world.log)|, token, old(world.address).value, spender)
              && (if current.value >= amount then
                    AllowanceAnswer(world.log[|old(world.log)| + 1], token, old(world.address).value, spender, amount)
                  else
                    ShortAnswer(world.log[|old(world.log)| + 1], token, old(world.address).value, spender, amount))
    ensures AllowanceScript(world.log, |old(world.log)|, token, spender)
    ensures old(world.address).None? ==> current.None? && world.log == old(world.log) + [Account(None)]
    ensures current.None? ==>
              && |world.log| > |old(world.log)|
              && (GivesUp(world.log) || NoAllowanceAnswer(world.log[|world.log| - 1], token))
  {
    var owner := world.GetAddress();
    if owner.None? {
      return None;
    }
    var raw := world.EthCall(token, Allowance(owner.value, spender));
    if raw.None? {
      return None;
    }
    return if Blank(raw.value) then Some(0) else Word(raw.value, 0);
  }

  lemma ApprovedWhenShort(read: Log, log: Log, base: nat, signer: Option<string>, token: string, owner: string,
                          spender: string, amount: int)
    requires |read| == base + 2 && read <= log
    requires AllowanceReadFor(read, base, token, owner, spender)
    requires ShortAnswer(read[base + 1], token, owner, spender, amount)
    requires Submits(log, |read|, signer, token, Approve(spender, amount))
    ensures AllowanceReadFor(log, base, token, owner, spender)
    ensures ApprovesIfShort(log, base, token, Some(owner), spender, amount)
    ensures Confirmed(log, |read|, |log|, token, Approve(spender, amount)) ==>
              AllowanceSettled(log, base, |log|, token, owner, spender, amount)
  {
    assert Quiet(read, base, |read|);
    SubmitsAfter(read, log, base, signer, token, Approve(spender, amount));
    assert log[base] == read[base] && log[base + 1] == read[base + 1];
    if Confirmed(log, |read|, |log|, token, Approve(spender, amount)) {
      ConfirmedFrom(log, |read|, base, token, Approve(spender, amount));
    }
  }

  lemma QuietApproves(log: Log, start: nat, token: string, owner: Option<string>, spender: string, amount: int)
    requires Quiet(log, start, |log|)
    ensures ApprovesIfShort(log, start, token, owner, spender, amount)
  {
  }

  /** The approval, behind an allowance that was read and found short. */
  method ApproveAmount(world: World, token: string, spender: string, amount: int, ghost owner: string)
    returns (ok: bool)
    requires |world.log| >= 2 && AllowanceReadFor(world.log, |world.log| - 2, token, owner, spender)
    requires ShortAnswer(world.log[|world.log| - 1], token, owner, spender, amount)
    modifies world
    ensures old(world.log) <= world.log
    ensures ApprovesIfShort(world.log, |old(world.log)| - 2, token, Some(owner), spender, amount)
    ensures ok ==> AllowanceSettled(world.log, |old(world.log)| - 2, |world.log|, token, owner, spender, amount)
    ensures ok || GivesUp(world.log)
  {
    hide GivesUp, SubmitsAs, Submits, SubmitsAt, OnlyIfShort, AllowanceSettled, Confirmed, ShortAnswer, AllowanceReadFor;
    ghost var read, signer := world.log, world.address;
    var hash := SendTx(world, token, Approve(spender, amount));
    ghost var log := world.log;
    ApprovedWhenShort(read, log, |read| - 2, signer, token, owner, spender, amount);
    ok := hash.Some?;
  }

  method EnsureErc20Allowance(world: World, token: string, spender: string, amount: int) returns (ok: bool)
    modifies world
    ensures old(world.log) <= world.log
    ensures AllowanceScript(world.log, |old(world.log)|, token, spender)
    ensures old(world.address).None? ==> !ok && world.log == old(world.log) + [Account(None)]
    ensures ApprovesIfShort(world.log, |old(world.log)|, token, old(world.address), spender, amount)
    ensures ok ==>
              && old(world.address).Some?
              && AllowanceReadFor(world.log, |old(world.log)|, token, old(world.address).value, spender)
              && AllowanceSettled(world.log, |old(world.log)|, |world.log|, token,
                                  old(world.address).value, spender, amount)
    ensures !ok ==>
              && |world.log| > |old(world.log)|
              && (GivesUp(world.log) || NoAllowanceAnswer(world.log[|world.log| - 1], token))
  {
    ghost var base, owner := |world.log|, world.address;
    var current := ReadAllowance(world, token, spender, amount);
    if current.None? || current.value >= amount {
      QuietApproves(world.log, base, token, owner, spender, amount);
      return current.Some?;
    }
    ok := ApproveAmount(world, token, spender, amount, owner.value);
  }

  lemma ApprovedWhenUnapproved(read: Log, log: Log, base: nat, signer: Option<string>, nft: string, tokenId: int)
    requires |read| == base + 1 && read <= log && UnapprovedAnswer(read[base], nft, tokenId)
    requires Submits(log, |read|, signer, nft, Approve(POOL, tokenId))
    ensures ApprovesIfUnapproved(log, base, nft, tokenId)
    ensures Confirmed(log, |read|, |log|, nft, Approve(POOL, tokenId)) ==> NftSettled(log, base, |log|, nft, tokenId)
  {
    assert Quiet(read, base, |read|);
    SubmitsAfter(read, log, base, signer, nft, Approve(POOL, tokenId));
    assert log[base] == read[base];
    if Confirmed(log, |read|, |log|, nft, Approve(POOL, tokenId)) {
      ConfirmedFrom(log, |read|, base, nft, Approve(POOL, tokenId));
    }
  }

  method EnsureNftApproved(world: World, nft: string, tokenId: nat) returns (ok: bool)
    modifies world
    ensures old(world.log) <= world.log
    ensures |world.log| > |old(world.log)| && Asks(world.log[|old(world.log)|], nft, GetApproved(tokenId))
    ensures ApprovesIfUnapproved(world.log, |old(world.log)|, nft, tokenId)
    ensures ok ==> NftSettled(world.log, |old(world.log)|, |world.log|, nft, tokenId)
    ensures !ok ==> |world.log| > |old(world.log)| && GivesUp(world.log)
  {
    ghost var base := |world.log|;
    var raw := world.EthCall(nft, GetApproved(tokenId));
    if raw.None? {
      return false;
    }
    ghost var read := world.log;
    var who := if Blank(raw.value) then "" else "0x" + Last40(raw.value);
    if Lower(who) == Lower(POOL) {
      assert ApprovedAnswer(read[base], nft, tokenId);
      return true;
    }
    hide Submits, GivesUp, StopsInChecks, NftSettled, ApprovesIfUnapproved;
    ghost var signer := world.address;
    var hash := SendTx(world, nft, Approve(POOL, tokenId));
    ghost var log := world.log;
    ApprovedWhenUnapproved(read, log, base, signer, nft, tokenId);
    return hash.Some?;
  }

  // ----- the three flows -----

  /** Of two submissions the first is an approval and the second is not, so there are at most two. */
  predicate ApprovalFirst(log: Log, from: nat) {
    forall i, j :: from <= i < j < |log| && log[i].Submitted? && log[j].Submitted? ==>
      log[i].request.Approve? && !log[j].request.Approve?
  }

  lemma ApprovalThenOther(settled: Log, log: Log, from: nat, token: string, amount: int, to: string, request: Request)
    requires from <= |settled| && settled <= log && !request.Approve?
    requires SubmitsEach(settled, from, token, Approve(POOL, amount)) && SubmitsEach(log, |settled|, to, request)
    ensures ApprovalFirst(log, from) && SignersRead(log, from)
  {
    SignersCompose(settled, log, from);
    forall i | from <= i < |log| && log[i].Submitted? ensures log[i].request.Approve? == (i < |settled|) {
      assert i < |settled| ==> log[i] == settled[i];
    }
    assert forall i :: from <= i < |settled| ==> settled[i] == log[i];
  }

  /** The submission at i is the approval of the units, or the deposit for the signer after the allowance
      was settled. */
  predicate SupplyStep(log: Log, from: nat, i: nat, owner: string, units: int)
    requires i < |log| && log[i].Submitted?
  {
    || (log[i].to == USDC && log[i].request == Approve(POOL, units) &&
        AllowanceShort(log, from, i, USDC, owner, POOL, units))
    || (log[i].to == POOL && log[i].request == Deposit(USDC, units, log[i].from) &&
        AllowanceSettled(log, from, i, USDC, owner, POOL, units))
  }

  /** Everything supply submits is guarded, and is at most one approval, of an allowance found short of the
      units asked for, and then at most one deposit on behalf of the signer, after the allowance was
      settled. */
  predicate SupplyTrace(log: Log, from: nat, owner: Option<string>, units: int) {
    && ApprovalFirst(log, from) && SignersRead(log, from)
    && forall i :: from <= i < |log| && log[i].Submitted? ==>
         Guarded(log, i) && units > 0 && owner.Some? && SupplyStep(log, from, i, owner.value, units)
  }

  lemma ApprovingIsSupplyStep(settled: Log, log: Log, from: nat, i: nat, owner: string, units: int)
    requires from + 1 < i < |settled| && settled <= log && settled[i].Submitted?
    requires settled[i].to == USDC && settled[i].request == Approve(POOL, units) && Guarded(settled, i)
    requires ShortAnswer(settled[from + 1], USDC, owner, POOL, units)
    ensures Guarded(log, i) && SupplyStep(log, from, i, owner, units)
  {
    assert log[i] == settled[i] && log[from + 1] == settled[from + 1];
    GuardedInExtension(settled, log, i);
  }

  lemma SupplyComposes(settled: Log, log: Log, from: nat, owner: string, units: int, account: string)
    requires from <= |settled| && settled <= log && units > 0
    requires ApprovesIfShort(settled, from, USDC, Some(owner), POOL, units)
    requires AllowanceSettled(settled, from, |settled|, USDC, owner, POOL, units)
    requires Submits(log, |settled|, Some(account), POOL, Deposit(USDC, units, account))
    ensures SupplyTrace(log, from, Some(owner), units)
  {
    SubmitsIsBy(log, |settled|, Some(account), POOL, Deposit(USDC, units, account));
    SubmitsMeans(log, |settled|, POOL, Deposit(USDC, units, account));
    SubmitsMeans(settled, from, USDC, Approve(POOL, units));
    SupplyStepsCompose(settled, log, from, owner, units, account);
  }

  lemma SupplyStepsCompose(settled: Log, log: Log, from: nat, owner: string, units: int, account: string)
    requires from <= |settled| && settled <= log && units > 0
    requires SubmitsEach(settled, from, USDC, Approve(POOL, units))
    requires OnlyIfShort(settled, from, USDC, Some(owner), POOL, units)
    requires log == settled || AllowanceSettled(settled, from, |settled|, USDC, owner, POOL, units)
    requires SubmitsEach(log, |settled|, POOL, Deposit(USDC, units, account))
    requires forall i :: |settled| <= i < |log| && log[i].Submitted? ==> log[i].from == account
    ensures SupplyTrace(log, from, Some(owner), units)
  {
    ApprovalThenOther(settled, log, from, USDC, units, POOL, Deposit(USDC, units, account));
    forall i | from <= i < |log| && log[i].Submitted?
      ensures Guarded(log, i) && SupplyStep(log, from, i, owner, units)
    {
      if i < |settled| {
        assert settled[i] == log[i];
        ApprovingIsSupplyStep(settled, log, from, i, owner, units);
      } else {
        SettledLater(settled, log, from, |settled|, i, USDC, owner, POOL, units);
      }
    }
  }

  /** A supply that stops with the approval. */
  lemma SupplyStops(log: Log, from: nat, owner: Option<string>, units: int)
    requires from <= |log| && units > 0 && ApprovesIfShort(log, from, USDC, owner, POOL, units)
    ensures SupplyTrace(log, from, owner, units)
  {
    if !Quiet(log, from, |log|) {
      SubmitsMeans(log, from, USDC, Approve(POOL, units));
      SupplyStepsCompose(log, log, from, owner.value, units, "");
    }
  }

  method SupplyUsdc(world: World, amount: Amount) returns (ok: bool)
    modifies world
    ensures old(world.log) <= world.log
    ensures !amount.Number? || Units(amount.value) <= 0 ==> !ok && world.log == old(world.log)
    ensures amount.Number? ==> SupplyTrace(world.log, |old(world.log)|, old(world.address), Units(amount.value))
    ensures ok ==> amount.Number? && exists account ::
              Confirmed(world.log, |old(world.log)|, |world.log|, POOL, Deposit(USDC, Units(amount.value), account))
    ensures amount.Number? && Units(amount.value) > 0 ==> AllowanceScript(world.log, |old(world.log)|, USDC, POOL)
    ensures !ok && amount.Number? && Units(amount.value) > 0 ==>
              GivesUp(world.log) || NoAllowanceAnswer(world.log[|world.log| - 1], USDC)
  {
    if !amount.Number? {
      return false;
    }
    var units := Units(amount.value);
    if units <= 0 {
      return false;
    }
    ghost var base, owner := |world.log|, world.address;
    var approved := EnsureErc20Allowance(world, USDC, POOL, units);
    if !approved {
      SupplyStops(world.log, base, owner, units);
      return false;
    }
    ghost var settled := world.log;
    var hash, account := SendOwn(world, POOL, account => Deposit(USDC, units, account));
    SupplyComposes(settled, world.log, base, owner.value, units, account);
    if hash.Some? {
      ConfirmedFrom(world.log, |settled|, base, POOL, Deposit(USDC, units, account));
    }
    return hash.Some?;
  }

  // ----- borrowing -----

  method AssertOwnsNft(world: World, nft: string, tokenId: nat) returns (ok: bool)
    modifies world
    ensures old(world.log) <= world.log && Quiet(world.log, |old(world.log)|, |world.log|)
    ensures ok ==>
              && IsHexAddress(nft) && old(world.address).Some?
              && OwnershipSeen(world.log, |old(world.log)|, |world.log|, nft, tokenId, old(world.address).value)
    ensures |old(world.log)| < |world.log| <= |old(world.log)| + 2 && (ok ==> |world.log| == |old(world.log)| + 2)
    ensures BorrowScript(world.log, |old(world.log)|, nft, tokenId)
    ensures !ok && (IsHexAddress(nft) || old(world.address).None?) ==>
              && (|| GivesUp(world.log)
                  || (old(world.address).Some? &&
                      NotOwnerAnswer(world.log[|world.log| - 1], nft, tokenId, old(world.address).value)))
  {
    ghost var base := |world.log|;
    var account := world.GetAddress();
    if account.None? || !IsHexAddress(nft) {
      return false;
    }
    var owner := account.value;
    var raw := world.EthCall(nft, OwnerOf(tokenId));
    if raw.None? || Blank(raw.value) {
      return false;
    }
    ok := Lower(AddrWord(raw.value, 0)) == Lower(owner);
    assert ok ==> OwnerAnswer(world.log[base + 1], nft, tokenId, owner);
  }

  /** The units available to borrow, if the whole quote can be read. */
  method ReadPoolQuote(world: World, nft: string) returns (available: Option<nat>)
    modifies world
    ensures old(world.log) <= world.log && Quiet(world.log, |old(world.log)|, |world.log|)
    ensures |world.log| == |old(world.log)| + 1
    ensures Asks(world.log[|old(world.log)|], POOL, CollateralData(nft, USDC))
    ensures available.Some? ==>
              && QuoteAnswer(world.log[|old(world.log)|], nft, available.value)
              && forall units :: units > available.value ==> NoQuoteAnswer(world.log[|old(world.log)|], nft, units)
    ensures available.None? ==>
              GivesUp(world.log) || forall units :: NoQuoteAnswer(world.log[|old(world.log)|], nft, units)
  {
    var raw := world.EthCall(POOL, CollateralData(nft, USDC));
    if raw.None? || !QuoteReadable(raw.value) {
      return None;
    }
    return Word(raw.value, 3);
  }

  /** The submission at i comes after the checks, and is the approval of the token, or the borrow for the
      signer after the token was approved. */
  predicate BorrowStep(log: Log, from: nat, i: nat, owner: string, nft: string, tokenId: int, units: int)
    requires i < |log| && log[i].Submitted?
  {
    && OwnershipSeen(log, from, i, nft, tokenId, owner) && QuoteSeen(log, from, i, nft, units)
    && (|| (log[i].to == nft && log[i].request == Approve(POOL, tokenId) && NftUnapproved(log, from, i, nft, tokenId))
        || (log[i].to == POOL && log[i].request == Borrow(USDC, units, nft, tokenId, log[i].from) &&
            NftSettled(log, from, i, nft, tokenId)))
  }

  /** Everything borrow submits is guarded, comes after the pool quoted at least the units asked for and
      the chain named the connected account as owner, and is at most one approval, of a token found not
      approved, and then at most one borrow on behalf of the signer, after the token was approved. */
  predicate BorrowTrace(log: Log, from: nat, owner: Option<string>, nft: string, tokenId: int, units: int) {
    && ApprovalFirst(log, from) && SignersRead(log, from)
    && forall i :: from <= i < |log| && log[i].Submitted? ==>
         Guarded(log, i) && units > 0 && owner.Some? && BorrowStep(log, from, i, owner.value, nft, tokenId, units)
  }

  lemma ChecksLater(log: Log, more: Log, from: nat, to: nat, nft: string, tokenId: int, owner: string, units: int)
    requires OwnershipSeen(log, from, |log|, nft, tokenId, owner) && QuoteSeen(log, from, |log|, nft, units)
    requires log <= more && |log| <= to
    ensures OwnershipSeen(more, from, to, nft, tokenId, owner) && QuoteSeen(more, from, to, nft, units)
  {
    var o :| from <= o < |log| && OwnerAnswer(log[o], nft, tokenId, owner);
    var q :| from <= q < |log| && QuoteAnswer(log[q], nft, units);
    assert more[o] == log[o] && more[q] == log[q];
  }

  lemma ApprovingIsBorrowStep(checked: Log, settled: Log, log: Log, from: nat, i: nat, owner: string, nft: string,
                              tokenId: int, units: int)
    requires from <= |checked| < i < |settled| && checked <= settled && settled <= log && settled[i].Submitted?
    requires OwnershipSeen(checked, from, |checked|, nft, tokenId, owner)
    requires QuoteSeen(checked, from, |checked|, nft, units)
    requires settled[i].to == nft && settled[i].request == Approve(POOL, tokenId) && Guarded(settled, i)
    requires UnapprovedAnswer(settled[|checked|], nft, tokenId)
    ensures Guarded(log, i) && BorrowStep(log, from, i, owner, nft, tokenId, units)
  {
    ChecksLater(checked, log, from, i, nft, tokenId, owner, units);
    assert log[i] == settled[i] && log[|checked|] == settled[|checked|];
    GuardedInExtension(settled, log, i);
    assert UnapprovedAnswer(log[|checked|], nft, tokenId);
  }

  lemma BorrowingIsBorrowStep(checked: Log, settled: Log, log: Log, from: nat, i: nat, owner: string, nft: string,
                              tokenId: int, units: int)
    requires from <= |checked| <= |settled| <= i < |log| && checked <= settled && settled <= log && log[i].Submitted?
    requires OwnershipSeen(checked, from, |checked|, nft, tokenId, owner)
    requires QuoteSeen(checked, from, |checked|, nft, units)
    requires NftSettled(settled, |checked|, |settled|, nft, tokenId)
    requires log[i].to == POOL && log[i].request == Borrow(USDC, units, nft, tokenId, log[i].from)
    ensures BorrowStep(log, from, i, owner, nft, tokenId, units)
  {
    ChecksLater(checked, log, from, i, nft, tokenId, owner, units);
    NftSettledLater(settled, log, |checked|, |settled|, i, nft, tokenId);
    NftSettledEarlier(log, |checked|, from, i, nft, tokenId);
  }

  /** A borrow that got as far as checking, and perhaps approving and borrowing. */
  lemma BorrowComposes(checked: Log, settled: Log, log: Log, from: nat, owner: string, nft: string, tokenId: int,
                       units: int, account: string)
    requires from <= |checked| && checked <= settled && settled <= log && units > 0
    requires Quiet(checked, from, |checked|)
    requires OwnershipSeen(checked, from, |checked|, nft, tokenId, owner)
    requires QuoteSeen(checked, from, |checked|, nft, units)
    requires ApprovesIfUnapproved(settled, |checked|, nft, tokenId)
    requires log == settled || NftSettled(settled, |checked|, |settled|, nft, tokenId)
    requires Submits(log, |settled|, Some(account), POOL, Borrow(USDC, units, nft, tokenId, account))
    ensures BorrowTrace(log, from, Some(owner), nft, tokenId, units)
  {
    SubmitsIsBy(log, |settled|, Some(account), POOL, Borrow(USDC, units, nft, tokenId, account));
    SubmitsMeans(log, |settled|, POOL, Borrow(USDC, units, nft, tokenId, account));
    SubmitsMeans(settled, |checked|, nft, Approve(POOL, tokenId));
    BorrowStepsCompose(checked, settled, log, from, owner, nft, tokenId, units, account);
  }

  lemma BorrowStepsCompose(checked: Log, settled: Log, log: Log, from: nat, owner: string, nft: string, tokenId: int,
                           units: int, account: string)
    requires from <= |checked| && checked <= settled && settled <= log && units > 0
    requires Quiet(checked, from, |checked|)
    requires OwnershipSeen(checked, from, |checked|, nft, tokenId, owner)
    requires QuoteSeen(checked, from, |checked|, nft, units)
    requires SubmitsEach(settled, |checked|, nft, Approve(POOL, tokenId))
    requires OnlyIfUnapproved(settled, |checked|, nft, tokenId)
    requires log == settled || NftSettled(settled, |checked|, |settled|, nft, tokenId)
    requires SubmitsEach(log, |settled|, POOL, Borrow(USDC, units, nft, tokenId, account))
    requires forall i :: |settled| <= i < |log| && log[i].Submitted? ==> log[i].from == account
    ensures BorrowTrace(log, from, Some(owner), nft, tokenId, units)
  {
    ApprovalThenOther(settled, log, |checked|, nft, tokenId, POOL, Borrow(USDC, units, nft, tokenId, account));
    forall i | from <= i < |log| && log[i].Submitted?
      ensures i >= |checked| && Guarded(log, i) && BorrowStep(log, from, i, owner, nft, tokenId, units)
    {
      if i < |settled| {
        ApprovingIsBorrowStep(checked, settled, log, from, i, owner, nft, tokenId, units);
      } else {
        BorrowingIsBorrowStep(checked, settled, log, from, i, owner, nft, tokenId, units);
      }
    }
  }

  lemma NftSettledEarlier(log: Log, from: nat, from': nat, to: nat, nft: string, tokenId: int)
    requires NftSettled(log, from, to, nft, tokenId) && from' <= from
    ensures NftSettled(log, from', to, nft, tokenId)
  {
    if !(exists k :: from <= k < to && k < |log| && ApprovedAnswer(log[k], nft, tokenId)) {
      var i, j :| from <= i < j < to && j < |log| && log[i].Submitted? && log[i].to == nft &&
        log[i].request == Approve(POOL, tokenId) && log[i].hash.Some? && log[j] == Receipt(log[i].hash.value, true);
    }
  }

  /** The last thing observed is a reason not to borrow. */
  predicate BorrowStops(log: Log, owner: Option<string>, nft: string, tokenId: int, units: int) {
    || GivesUp(log)
    || (|log| > 0 && owner.Some? && NotOwnerAnswer(log[|log| - 1], nft, tokenId, owner.value))
    || (|log| > 0 && NoQuoteAnswer(log[|log| - 1], nft, units))
  }

  /** The two checks in front of an approval: ownership, then the quote. */
  method CheckBorrow(world: World, nft: string, id: nat, units: int) returns (ok: bool)
    modifies world
    ensures old(world.log) <= world.log && Quiet(world.log, |old(world.log)|, |world.log|)
    ensures ok ==>
              && old(world.address).Some? && IsHexAddress(nft)
              && OwnershipSeen(world.log, |old(world.log)|, |world.log|, nft, id, old(world.address).value)
              && QuoteSeen(world.log, |old(world.log)|, |world.log|, nft, units)
    ensures BorrowScript(world.log, |old(world.log)|, nft, id)
    ensures |world.log| <= |old(world.log)| + 3 && (ok ==> |world.log| == |old(world.log)| + 3)
    ensures !ok && IsHexAddress(nft) ==> BorrowStops(world.log, old(world.address), nft, id, units)
  {
    ghost var base, owner := |world.log|, world.address;
    var owns := AssertOwnsNft(world, nft, id);
    if !owns {
      return false;
    }
    ghost var owned := world.log;
    var available := ReadPoolQuote(world, nft);
    if available.None? || units > available.value {
      return false;
    }
    ghost var o :| base <= o < |owned| && OwnerAnswer(owned[o], nft, id, owner.value);
    assert world.log[o] == owned[o];
    assert QuoteAnswer(world.log[|owned|], nft, units);
    return true;
  }

  /** The two transactions of a borrow; settled is the log between them. */
  method ApproveAndBorrow(world: World, nft: string, id: nat, units: nat)
    returns (ok: bool, ghost settled: Log, ghost account: string)
    modifies world
    ensures old(world.log) <= settled && settled <= world.log
    ensures ApprovesIfUnapproved(settled, |old(world.log)|, nft, id)
    ensures world.log == settled || NftSettled(settled, |old(world.log)|, |settled|, nft, id)
    ensures Submits(world.log, |settled|, Some(account), POOL, Borrow(USDC, units, nft, id, account))
    ensures |world.log| > |old(world.log)| && Asks(world.log[|old(world.log)|], nft, GetApproved(id))
    ensures ok ==>
              Confirmed(world.log, |old(world.log)|, |world.log|, POOL, Borrow(USDC, units, nft, id, account))
    ensures !ok ==> GivesUp(world.log)
  {
    ghost var base := |world.log|;
    var approved := EnsureNftApproved(world, nft, id);
    settled, account := world.log, "";
    if !approved {
      return false, settled, account;
    }
    var hash;
    hash, account := SendOwn(world, POOL, account => Borrow(USDC, units, nft, id, account));
    if hash.Some? {
      ConfirmedFrom(world.log, |settled|, base, POOL, Borrow(USDC, units, nft, id, account));
    }
    ok := hash.Some?;
  }

  /** A borrow of checked input: ownership and quote, then the approval, then the borrow. */
  method CheckAndBorrow(world: World, nft: string, id: nat, units: nat) returns (ok: bool, ghost account: string)
    requires units > 0
    modifies world
    ensures old(world.log) <= world.log
    ensures BorrowTrace(world.log, |old(world.log)|, old(world.address), nft, id, units)
    ensures ok ==>
              && IsHexAddress(nft)
              && Confirmed(world.log, |old(world.log)|, |world.log|, POOL, Borrow(USDC, units, nft, id, account))
    ensures BorrowScript(world.log, |old(world.log)|, nft, id)
    ensures !ok && IsHexAddress(nft) ==> BorrowStops(world.log, old(world.address), nft, id, units)
  {
    ghost var base, owner := |world.log|, world.address;
    account := "";
    ok := CheckBorrow(world, nft, id, units);
    if ok {
      ghost var checked := world.log;
      ghost var settled;
      ok, settled, account := ApproveAndBorrow(world, nft, id, units);
      BorrowComposes(checked, settled, world.log, base, owner.value, nft, id, units, account);
      if ok {
        ConfirmedFrom(world.log, |checked|, base, POOL, Borrow(USDC, units, nft, id, account));
      }
    }
  }

  method BorrowUsdc(world: World, nft: string, tokenId: string, amount: Amount) returns (ok: bool)
    modifies world
    ensures old(world.log) <= world.log
    ensures !amount.Number? || !IsTokenId(tokenId) || Units(amount.value) <= 0 ==> !ok && world.log == old(world.log)
    ensures amount.Number? && IsTokenId(tokenId) ==>
              BorrowTrace(world.log, |old(world.log)|, old(world.address), nft,
                          ParseDecimal(tokenId), Units(amount.value))
    ensures ok ==> amount.Number? && IsTokenId(tokenId) && exists account ::
              Confirmed(world.log, |old(world.log)|, |world.log|, POOL,
                        Borrow(USDC, Units(amount.value), nft, ParseDecimal(tokenId), account))
    ensures !ok && amount.Number? && IsTokenId(tokenId) && Units(amount.value) > 0 && IsHexAddress(nft) ==>
              BorrowStops(world.log, old(world.address), nft, ParseDecimal(tokenId), Units(amount.value))
    ensures amount.Number? && IsTokenId(tokenId) && Units(amount.value) > 0 ==>
              BorrowScript(world.log, |old(world.log)|, nft, ParseDecimal(tokenId))
    ensures ok ==> IsHexAddress(nft)
  {
    if !IsTokenId(tokenId) || !amount.Number? {
      return false;
    }
    var id := ParseDecimal(tokenId);
    var units := Units(amount.value);
    if units <= 0 {
      return false;
    }
    ghost var account;
    ok, account := CheckAndBorrow(world, nft, id, units);
  }

  // ----- repaying -----

  /** The debt of a loan, if there is one. */
  method ReadDebt(world: World, nft: string, tokenId: nat) returns (debt: Option<nat>)
    modifies world
    ensures old(world.log) <= world.log && Quiet(world.log, |old(world.log)|, |world.log|)
    ensures |world.log| == |old(world.log)| + 1
    ensures Asks(world.log[|old(world.log)|], POOL, DebtData(nft, tokenId))
    ensures debt.Some? ==> DebtAnswer(world.log[|old(world.log)|], nft, tokenId, debt.value)
    ensures debt.None? ==> GivesUp(world.log) || NoDebtAnswer(world.log[|old(world.log)|], nft, tokenId)
  {
    var raw := world.EthCall(POOL, DebtData(nft, tokenId));
    if raw.None? || !DebtReadable(raw.value) {
      return None;
    }
    if Word(raw.value, 0).value == 0 || Word(raw.value, 3).value == 0 {
      return None;
    }
    return Word(raw.value, 3);
  }

  /** The units to repay: all of the debt if no amount is given. */
  function RepayUnits(amount: Amount, debt: nat): int {
    match amount
    case Missing => debt
    case NotANumber => 0
    case Number(value) => Units(value)
  }

  /** The units are the reported debt, all of it, if no amount is given, and else the amount in the nearest
      units. */
  predicate UnitsAsked(amount: Amount, answer: Observation, units: int) {
    match amount
    case Missing => answer.Called? && Word(answer.raw, 3) == Some(units)
    case NotANumber => false
    case Number(value) => Nearest(units, value)
  }

  /** Whatever is approved or repaid from here on is what was asked. */
  predicate RepaysAsAsked(log: Log, from: nat, amount: Amount) {
    forall i :: from <= i < |log| && log[i].Submitted? ==>
      match log[i].request
      case Approve(_, units) => UnitsAsked(amount, log[from], units)
      case Repay(_, _, units) => UnitsAsked(amount, log[from], units)
      case _ => false
  }

  lemma TraceRepaysAsAsked(log: Log, from: nat, owner: string, nft: string, tokenId: int, debt: nat, amount: Amount)
    requires RepayTrace(log, from, owner, nft, tokenId, debt, RepayUnits(amount, debt)) && !amount.NotANumber?
    ensures RepaysAsAsked(log, from, amount)
  {
    if amount.Number? {
      UnitsExactlyNearest(Units(amount.value), amount.value);
    }
  }

  /** The submission at i comes after the loan was reported and the allowance of the account then connected
      was read, and is the approval of the units, or the repayment after that allowance was settled. */
  predicate RepayStep(log: Log, from: nat, i: nat, owner: string, nft: string, tokenId: int, debt: nat, units: int)
    requires i < |log| && log[i].Submitted?
  {
    && from + 2 < i && DebtAnswer(log[from], nft, tokenId, debt) && AllowanceReadFor(log, from + 1, USDC, owner, POOL)
    && (|| (log[i].to == USDC && log[i].request == Approve(POOL, units) &&
            AllowanceShort(log, from, i, USDC, owner, POOL, units))
        || (log[i].to == POOL && log[i].request == Repay(nft, tokenId, units) &&
            AllowanceSettled(log, from, i, USDC, owner, POOL, units)))
  }

  /** Everything repay submits is guarded, comes after the pool reported a loan with this debt, and is at
      most one approval, of an allowance found short of the units, and then at most one repayment, after
      the allowance of the account then connected was settled. */
  predicate RepayTrace(log: Log, from: nat, owner: string, nft: string, tokenId: int, debt: nat, units: int) {
    && ApprovalFirst(log, from) && SignersRead(log, from)
    && forall i :: from <= i < |log| && log[i].Submitted? ==>
         Guarded(log, i) && RepayStep(log, from, i, owner, nft, tokenId, debt, units)
  }

  lemma ApprovingIsRepayStep(settled: Log, log: Log, from: nat, i: nat, owner: string, nft: string, tokenId: int,
                             debt: nat, units: int)
    requires from + 2 < i < |settled| && settled <= log && settled[i].Submitted?
    requires DebtAnswer(settled[from], nft, tokenId, debt) && AllowanceReadFor(settled, from + 1, USDC, owner, POOL)
    requires settled[i].to == USDC && settled[i].request == Approve(POOL, units) && Guarded(settled, i)
    requires ShortAnswer(settled[from + 2], USDC, owner, POOL, units)
    ensures Guarded(log, i) && RepayStep(log, from, i, owner, nft, tokenId, debt, units)
  {
    assert forall k :: 0 <= k < |settled| ==> log[k] == settled[k];
    GuardedInExtension(settled, log, i);
    assert ShortAnswer(log[from + 2], USDC, owner, POOL, units);
  }

  lemma RepayingIsRepayStep(settled: Log, log: Log, from: nat, i: nat, owner: string, nft: string, tokenId: int,
                            debt: nat, units: int)
    requires from + 2 < |settled| <= i < |log| && settled <= log && log[i].Submitted?
    requires DebtAnswer(settled[from], nft, tokenId, debt) && AllowanceReadFor(settled, from + 1, USDC, owner, POOL)
    requires AllowanceSettled(settled, from + 1, |settled|, USDC, owner, POOL, units)
    requires log[i].to == POOL && log[i].request == Repay(nft, tokenId, units)
    ensures RepayStep(log, from, i, owner, nft, tokenId, debt, units)
  {
    assert forall k :: 0 <= k < |settled| ==> log[k] == settled[k];
    SettledLater(settled, log, from + 1, |settled|, i, USDC, owner, POOL, units);
    SettledEarlier(log, from + 1, from, i, USDC, owner, POOL, units);
  }

  lemma RepayComposes(read: Log, settled: Log, log: Log, from: nat, owner: string, nft: string, tokenId: int,
                      debt: nat, units: int)
    requires |read| == from + 1 && read <= settled && settled <= log
    requires Quiet(read, from, |read|) && DebtAnswer(read[from], nft, tokenId, debt)
    requires ApprovesIfShort(settled, |read|, USDC, Some(owner), POOL, units)
    requires log == settled ||
             (AllowanceReadFor(settled, |read|, USDC, owner, POOL) &&
              AllowanceSettled(settled, |read|, |settled|, USDC, owner, POOL, units))
    requires SubmitsAs(log, |settled|, POOL, Repay(nft, tokenId, units))
    ensures RepayTrace(log, from, owner, nft, tokenId, debt, units)
  {
    SubmitsMeans(log, |settled|, POOL, Repay(nft, tokenId, units));
    SubmitsMeans(settled, |read|, USDC, Approve(POOL, units));
    RepayStepsCompose(read, settled, log, from, owner, nft, tokenId, debt, units);
  }

  /** Reading in front of the submissions changes neither their order nor who signs them. */
  lemma ReadingInFront(read: Log, log: Log, from: nat)
    requires from <= |read| && read <= log && Quiet(read, from, |read|)
    requires ApprovalFirst(log, |read|) && SignersRead(log, |read|)
    ensures ApprovalFirst(log, from) && SignersRead(log, from)
  {
    assert forall i :: 0 <= i < |read| ==> read[i] == log[i];
    SignersCompose(read, log, from);
  }

  lemma RepayStepsCompose(read: Log, settled: Log, log: Log, from: nat, owner: string, nft: string, tokenId: int,
                          debt: nat, units: int)
    requires |read| == from + 1 && read <= settled && settled <= log
    requires Quiet(read, from, |read|) && DebtAnswer(read[from], nft, tokenId, debt)
    requires SubmitsEach(settled, |read|, USDC, Approve(POOL, units))
    requires OnlyIfShort(settled, |read|, USDC, Some(owner), POOL, units)
    requires log == settled ||
             (AllowanceReadFor(settled, |read|, USDC, owner, POOL) &&
              AllowanceSettled(settled, |read|, |settled|, USDC, owner, POOL, units))
    requires SubmitsEach(log, |settled|, POOL, Repay(nft, tokenId, units))
    ensures RepayTrace(log, from, owner, nft, tokenId, debt, units)
  {
    ApprovalThenOther(settled, log, |read|, USDC, units, POOL, Repay(nft, tokenId, units));
    ReadingInFront(read, log, from);
    hide SubmitsEach, OnlyIfShort, AllowanceReadFor, AllowanceSettled, Guarded, RepayStep, ApprovalFirst, SignersRead;
    assert log[from] == read[from];
    forall i | from <= i < |log| && log[i].Submitted?
      ensures i > from && Guarded(log, i) && RepayStep(log, from, i, owner, nft, tokenId, debt, units)
    {
      RepayStepComposes(read, settled, log, from, owner, nft, tokenId, debt, units, i);
    }
  }

  lemma RepayStepComposes(read: Log, settled: Log, log: Log, from: nat, owner: string, nft: string, tokenId: int,
                          debt: nat, units: int, i: nat)
    requires |read| == from + 1 && read <= settled && settled <= log
    requires Quiet(read, from, |read|) && DebtAnswer(read[from], nft, tokenId, debt)
    requires SubmitsEach(settled, |read|, USDC, Approve(POOL, units))
    requires OnlyIfShort(settled, |read|, USDC, Some(owner), POOL, units)
    requires log == settled ||
             (AllowanceReadFor(settled, |read|, USDC, owner, POOL) &&
              AllowanceSettled(settled, |read|, |settled|, USDC, owner, POOL, units))
    requires SubmitsEach(log, |settled|, POOL, Repay(nft, tokenId, units))
    requires from < i < |log| && log[i].Submitted?
    ensures Guarded(log, i) && RepayStep(log, from, i, owner, nft, tokenId, debt, units)
  {
    hide Guarded, AllowanceSettled, RepayStep;
    assert settled[from] == read[from];
    if i < |settled| {
      assert settled[i] == log[i];
      ApprovingIsRepayStep(settled, log, from, i, owner, nft, tokenId, debt, units);
    } else {
      RepayingIsRepayStep(settled, log, from, i, owner, nft, tokenId, debt, units);
    }
  }

  lemma SettledEarlier(log: Log, from: nat, from': nat, to: nat,
                       token: string, owner: string, spender: string, amount: int)
    requires AllowanceSettled(log, from, to, token, owner, spender, amount) && from' <= from
    ensures AllowanceSettled(log, from', to, token, owner, spender, amount)
  {
    if !(exists k :: from <= k < to && k < |log| && AllowanceAnswer(log[k], token, owner, spender, amount)) {
      var i, j :| from <= i < j < to && j < |log| && log[i].Submitted? && log[i].to == token &&
        log[i].request == Approve(spender, amount) && log[i].hash.Some? && log[j] == Receipt(log[i].hash.value, true);
    }
  }

  /** The two transactions of a repayment; settled is the log between them, owner the account whose
      allowance was read. */
  method ApproveAndRepay(world: World, nft: string, id: nat, units: int)
    returns (ok: bool, ghost settled: Log, ghost owner: string)
    modifies world
    ensures old(world.log) <= settled && settled <= world.log
    ensures ApprovesIfShort(settled, |old(world.log)|, USDC, Some(owner), POOL, units)
    ensures world.log == settled ||
            (AllowanceReadFor(settled, |old(world.log)|, USDC, owner, POOL) &&
             AllowanceSettled(settled, |old(world.log)|, |settled|, USDC, owner, POOL, units))
    ensures AllowanceScript(world.log, |old(world.log)|, USDC, POOL)
    ensures SubmitsAs(world.log, |settled|, POOL, Repay(nft, id, units))
    ensures ok ==> Confirmed(world.log, |settled|, |world.log|, POOL, Repay(nft, id, units))
    ensures !ok ==>
              GivesUp(world.log) || NoAllowanceAnswer(world.log[|world.log| - 1], USDC)
  {
    owner := if world.address.Some? then world.address.value else "";
    var approved := EnsureErc20Allowance(world, USDC, POOL, units);
    settled := world.log;
    if !approved {
      return false, settled, owner;
    }
    var hash := SendTx(world, POOL, Repay(nft, id, units));
    return hash.Some?, settled, owner;
  }

  /** A repayment for a token id that is one: the debt, then the two transactions. */
  method RepayToken(world: World, nft: string, id: nat, amount: Amount)
    returns (ok: bool, ghost owner: string, ghost debt: nat)
    modifies world
    ensures old(world.log) <= world.log
    ensures amount.NotANumber? ==> !ok && Quiet(world.log, |old(world.log)|, |world.log|)
    ensures RepayTrace(world.log, |old(world.log)|, owner, nft, id, debt, RepayUnits(amount, debt))
    ensures RepayScript(world.log, |old(world.log)|, nft, id)
    ensures ok ==> Confirmed(world.log, |old(world.log)|, |world.log|, POOL, Repay(nft, id, RepayUnits(amount, debt)))
    ensures !ok && !amount.NotANumber? ==> RepayStops(world.log, nft, id)
  {
    owner, debt := "", 0;
    ghost var base := |world.log|;
    var total := ReadDebt(world, nft, id);
    if total.None? || amount.NotANumber? {
      QuietRepay(world.log, base, owner, nft, id, debt, RepayUnits(amount, debt));
      return false, owner, debt;
    }
    debt := total.value;
    ghost var read := world.log;
    var units := if amount.Missing? then total.value else Units(amount.value);
    ghost var settled;
    ok, settled, owner := ApproveAndRepay(world, nft, id, units);
    RepayComposes(read, settled, world.log, base, owner, nft, id, debt, units);
    if ok {
      ConfirmedFrom(world.log, |settled|, base, POOL, Repay(nft, id, units));
    }
  }

  lemma QuietRepay(log: Log, from: nat, owner: string, nft: string, tokenId: int, debt: nat, units: int)
    requires Quiet(log, from, |log|)
    ensures RepayTrace(log, from, owner, nft, tokenId, debt, units)
  {
  }

  /** The last thing observed is a reason not to repay. */
  predicate RepayStops(log: Log, nft: string, tokenId: int) {
    || GivesUp(log)
    || (|log| > 0 && (NoDebtAnswer(log[|log| - 1], nft, tokenId) || NoAllowanceAnswer(log[|log| - 1], USDC)))
  }

  method RepayLoan(world: World, nft: string, tokenId: string, amount: Amount)
    returns (ok: bool, ghost owner: string, ghost debt: nat)
    modifies world
    ensures old(world.log) <= world.log
    ensures !IsTokenId(tokenId) ==> !ok && world.log == old(world.log)
    ensures amount.NotANumber? ==> !ok && Quiet(world.log, |old(world.log)|, |world.log|)
    ensures IsTokenId(tokenId) ==>
              && RepayTrace(world.log, |old(world.log)|, owner, nft, ParseDecimal(tokenId), debt, RepayUnits(amount, debt))
              && RepayScript(world.log, |old(world.log)|, nft, ParseDecimal(tokenId))
    ensures IsTokenId(tokenId) && !amount.NotANumber? ==> RepaysAsAsked(world.log, |old(world.log)|, amount)
    ensures ok ==>
              && !amount.NotANumber? && IsTokenId(tokenId)
              && Confirmed(world.log, |old(world.log)|, |world.log|, POOL,
                           Repay(nft, ParseDecimal(tokenId), RepayUnits(amount, debt)))
    ensures !ok && !amount.NotANumber? && IsTokenId(tokenId) ==> RepayStops(world.log, nft, ParseDecimal(tokenId))
  {
    owner, debt := "", 0;
    if !IsTokenId(tokenId) {
      return false, owner, debt;
    }
    ghost var base := |world.log|;
    ok, owner, debt := RepayToken(world, nft, ParseDecimal(tokenId), amount);
    if !amount.NotANumber? {
      TraceRepaysAsAsked(world.log, base, owner, nft, ParseDecimal(tokenId), debt, amount);
    }
  }
}
