/** Who signs what a flow submits: the account that was read last, which after an account switch need not
    be the one whose allowance or ownership was checked. */
module PoolSigners {
  import opened Wrappers
  import opened AbiWords
  import opened CallData
  import opened PoolClient
  import opened PoolFlows

  /** Whenever the connected account was read between from and to and there was one, it was this one. */
  predicate Steady(log: Log, from: nat, to: nat, account: string) {
    forall k :: from <= k < to && k < |log| && log[k].Account? && log[k].address.Some? ==>
      log[k].address.value == account
  }

  lemma SteadyIsLastRead(log: Log, from: nat, i: nat, account: string)
    requires SignersRead(log, from) && from <= i < |log| && log[i].Submitted? && Steady(log, from, i, account)
    ensures LastRead(log, from, i, account)
  {
    var k :| from <= k < i && log[k] == Account(Some(log[i].from)) && NoReads(log, k + 1, i);
    assert log[k].address.value == account;
  }

  /** Confirmed, and signed by this account. */
  predicate ConfirmedBy(log: Log, from: nat, to: nat, signer: string, target: string, request: Request) {
    exists i, j :: from <= i < j < to && j < |log| && log[i].Submitted? && log[i].from == signer &&
      log[i].to == target && log[i].request == request &&
      log[i].hash.Some? && log[j] == Receipt(log[i].hash.value, true)
  }

  lemma SteadyConfirms(log: Log, from: nat, to: nat, account: string, target: string, request: Request)
    requires SignersRead(log, from) && Steady(log, from, to, account) && Confirmed(log, from, to, target, request)
    ensures ConfirmedBy(log, from, to, account, target, request)
  {
    var i, j :| from <= i < j < to && j < |log| && log[i].Submitted? && log[i].to == target &&
      log[i].request == request && log[i].hash.Some? && log[j] == Receipt(log[i].hash.value, true);
    assert Steady(log, from, i, account);
    SteadyIsLastRead(log, from, i, account);
    SignsExactlyIf(log, from, i, account);
  }

  /** The allowance of the account suffices, or it has approved the amount itself. */
  predicate AllowanceSettledBy(log: Log, from: nat, to: nat, owner: string, amount: int) {
    || (exists k :: from <= k < to && k < |log| && AllowanceAnswer(log[k], USDC, owner, POOL, amount))
    || ConfirmedBy(log, from, to, owner, USDC, Approve(POOL, amount))
  }

  /** Supply: the owner of the allowance that was checked signs a submission, and is the one it deposits
      for, exactly if it is the account read last in front of it. Without an account switch that is so, and
      the deposit follows a sufficient allowance or an approval of that very account. */
  lemma SupplySignersExactlyIf(log: Log, from: nat, owner: string, units: int, i: nat)
    requires SupplyTrace(log, from, Some(owner), units) && from <= i < |log| && log[i].Submitted?
    ensures log[i].from == owner <==> LastRead(log, from, i, owner)
    ensures log[i].to == POOL && log[i].request.Deposit? ==>
              (log[i].request == Deposit(USDC, units, owner) <==> LastRead(log, from, i, owner))
    ensures Steady(log, from, i, owner) ==>
              && log[i].from == owner
              && (log[i].request.Deposit? ==> AllowanceSettledBy(log, from, i, owner, units))
  {
    SignsExactlyIf(log, from, i, owner);
    if Steady(log, from, i, owner) {
      SteadyIsLastRead(log, from, i, owner);
      if log[i].request.Deposit? && Confirmed(log, from, i, USDC, Approve(POOL, units)) {
        SteadyConfirms(log, from, i, owner, USDC, Approve(POOL, units));
      }
    }
  }

  /** Borrow: the account that the chain named as owner of the token signs a submission, and is the one it
      borrows for, exactly if it is the account read last in front of it; without an account switch that is
      so, and the borrow follows an approval by whoever was asked, or by that very account. */
  lemma BorrowSignersExactlyIf(log: Log, from: nat, owner: string, nft: string, tokenId: int, units: int, i: nat)
    requires BorrowTrace(log, from, Some(owner), nft, tokenId, units) && from <= i < |log| && log[i].Submitted?
    ensures OwnershipSeen(log, from, i, nft, tokenId, owner)
    ensures log[i].from == owner <==> LastRead(log, from, i, owner)
    ensures log[i].request.Borrow? ==>
              (log[i].request == Borrow(USDC, units, nft, tokenId, owner) <==> LastRead(log, from, i, owner))
    ensures Steady(log, from, i, owner) ==>
              && log[i].from == owner
              && (log[i].request.Borrow? ==>
                    || (exists k :: from <= k < i && ApprovedAnswer(log[k], nft, tokenId))
                    || ConfirmedBy(log, from, i, owner, nft, Approve(POOL, tokenId)))
  {
    SignsExactlyIf(log, from, i, owner);
    if Steady(log, from, i, owner) {
      SteadyIsLastRead(log, from, i, owner);
      if log[i].request.Borrow? && Confirmed(log, from, i, nft, Approve(POOL, tokenId)) {
        SteadyConfirms(log, from, i, owner, nft, Approve(POOL, tokenId));
      }
    }
  }

  /** Repay: the account whose allowance was read signs a submission exactly if it is the account read last
      in front of it; without an account switch that is so, and the repayment follows a sufficient allowance
      or an approval of that very account. */
  lemma RepaySignersExactlyIf(log: Log, from: nat, owner: string, nft: string, tokenId: int, debt: nat, units: int,
                              i: nat)
    requires RepayTrace(log, from, owner, nft, tokenId, debt, units) && from <= i < |log| && log[i].Submitted?
    ensures log[i].from == owner <==> LastRead(log, from, i, owner)
    ensures Steady(log, from, i, owner) ==>
              && log[i].from == owner
              && (log[i].request.Repay? ==> AllowanceSettledBy(log, from, i, owner, units))
  {
    SignsExactlyIf(log, from, i, owner);
    if Steady(log, from, i, owner) {
      SteadyIsLastRead(log, from, i, owner);
      if log[i].request.Repay? && Confirmed(log, from, i, USDC, Approve(POOL, units)) {
        SteadyConfirms(log, from, i, owner, USDC, Approve(POOL, units));
      }
    }
  }

  /** What supply observes when the user switches from one account to another after the allowance of the
      first was found sufficient. */
  function SwitchedChecks(first: string, second: string): Log {
    [Account(Some(first)), Called(USDC, Allowance(first, POOL), "0x1"),
     Account(Some(second)), Account(Some(second)),
     Connected(Some(0)), Accounts(0, second, [second]), Connected(Some(0)), Chain(0, CHAIN_ID),
     Vault(POOL, None), Connected(Some(0)), Switch(0, Switched), Chain(0, CHAIN_ID)]
  }

  function SwitchedSupply(first: string, second: string): Log {
    SwitchedChecks(first, second) + [Submitted(0, second, POOL, Deposit(USDC, 1, second), None)]
  }

  lemma SwitchedSupplyIsGuarded(first: string, second: string)
    ensures Guarded(SwitchedSupply(first, second), 12)
  {
    var checked := SwitchedChecks(first, second);
    assert Lower(CHAIN_ID) == CHAIN_ID;
    assert Lists([second], second) by {
      assert Lower([second][0]) == Lower(second);
    }
    assert Listed(checked, 5, second);
    assert ChecksPassed(checked, 4, second, POOL, 0);
    CheckedIsGuarded(checked, SwitchedSupply(first, second), 4);
  }

  lemma OneSuffices(owner: string)
    ensures AllowanceAnswer(Called(USDC, Allowance(owner, POOL), "0x1"), USDC, owner, POOL, 1)
  {
    assert Slice("0x1", 2, 66) == "1";
    assert ParseHex("1") == Some(1);
  }

  /** It meets everything promised of a supply, and the second account deposits. */
  lemma SwitchedSupplyDeposits(first: string, second: string)
    ensures var log := SwitchedSupply(first, second);
            SupplyTrace(log, 0, Some(first), 1) && log[12].Submitted? && log[12].from == second
  {
    hide Guarded;
    var log := SwitchedSupply(first, second);
    SwitchedSupplyIsGuarded(first, second);
    OneSuffices(first);
    assert AllowanceAnswer(log[1], USDC, first, POOL, 1);
    assert log[3] == Account(Some(second)) && NoReads(log, 4, 12);
  }
}
