/** What the answers of the contracts mean for the client: the values they encode decide what it does. */
module PoolAnswers {
  import opened Wrappers
  import opened AbiWords
  import opened CallData
  import opened PoolClient
  import opened PoolFlows

  /** The answer of a contract function that returns these values. */
  function Returned(values: seq<Arg>): string {
    "0x" + Join(EncodeAll(values))
  }

  lemma ReturnedReadsBack(values: seq<Arg>, i: nat)
    requires i < |values| && forall j :: 0 <= j < |values| ==> ValidArg(values[j])
    ensures ReadsAs(Returned(values), i, values[i]) && !Blank(Returned(values))
  {
    var words := EncodeAll(values);
    forall j | 0 <= j < |words| ensures |words[j]| == WORD {
      EncodedWord(values[j]);
    }
    WordsReadBack(words, i, values[i]);
    JoinLength(words);
  }

  /** allowance(owner, spender) returns one number; it settles the matter exactly if it covers the amount. */
  lemma AllowanceDecides(token: string, owner: string, spender: string, allowed: nat, amount: int)
    requires allowed < UINT_BOUND
    ensures var o := Called(token, Allowance(owner, spender), Returned([UintArg(allowed)]));
            && (AllowanceAnswer(o, token, owner, spender, amount) <==> amount <= allowed)
            && (ShortAnswer(o, token, owner, spender, amount) <==> amount > allowed)
            && !NoAllowanceAnswer(o, token)
  {
    ReturnedReadsBack([UintArg(allowed)], 0);
  }

  /** ownerOf(tokenId) returns one address; the account owns the token exactly if it is that one, whatever
      the case of the letters. */
  lemma OwnerDecides(nft: string, tokenId: int, holder: string, owner: string)
    requires IsHexAddress(holder)
    ensures var o := Called(nft, OwnerOf(tokenId), Returned([AddressArg(holder)]));
            && (OwnerAnswer(o, nft, tokenId, owner) <==> Lower(holder) == Lower(owner))
            && (NotOwnerAnswer(o, nft, tokenId, owner) <==> Lower(holder) != Lower(owner))
  {
    ReturnedReadsBack([AddressArg(holder)], 0);
    LowerTwice(holder);
  }

  lemma ReturnedAddress(a: string)
    requires IsHexAddress(a)
    ensures !Blank(Returned([AddressArg(a)])) && "0x" + Last40(Returned([AddressArg(a)])) == Lower(a)
  {
    var word := PadAddr(a);
    PadAddrWord(a);
    assert EncodeAll([AddressArg(a)]) == [word];
    JoinOneMore([], word);
    assert [] + [word] == [word] && Join([]) + word == word;
    LastOfWord(word);
  }

  lemma LastOfWord(word: string)
    requires |word| == WORD
    ensures Last40("0x" + word) == word[24..]
  {
    assert ("0x" + word)[26..] == word[24..];
  }

  /** getApproved(tokenId) returns one address; an approval is needed exactly if it is not the pool. */
  lemma ApprovedDecides(nft: string, tokenId: int, approved: string)
    requires IsHexAddress(approved)
    ensures var o := Called(nft, GetApproved(tokenId), Returned([AddressArg(approved)]));
            && (ApprovedAnswer(o, nft, tokenId) <==> Lower(approved) == Lower(POOL))
            && (UnapprovedAnswer(o, nft, tokenId) <==> Lower(approved) != Lower(POOL))
  {
    ReturnedAddress(approved);
    LowerTwice(approved);
  }

  /** What getNftCollateralData returns. */
  datatype Collateral = Collateral(totalInEth: nat, totalInReserve: nat, availableInEth: nat, availableInReserve: nat,
                                   ltv: nat, liquidationThreshold: nat, liquidationBonus: nat)
  {
    function Values(): seq<Arg> {
      [UintArg(totalInEth), UintArg(totalInReserve), UintArg(availableInEth), UintArg(availableInReserve),
       UintArg(ltv), UintArg(liquidationThreshold), UintArg(liquidationBonus)]
    }
  }

  predicate AllValid(values: seq<Arg>) {
    forall j :: 0 <= j < |values| ==> ValidArg(values[j])
  }

  /** A borrow is within the quote exactly if it is at most what is available in the reserve's own units. */
  lemma QuoteDecides(nft: string, quote: Collateral, units: int)
    requires AllValid(quote.Values())
    ensures var o := Called(POOL, CollateralData(nft, USDC), Returned(quote.Values()));
            && (QuoteAnswer(o, nft, units) <==> units <= quote.availableInReserve)
            && (NoQuoteAnswer(o, nft, units) <==> units > quote.availableInReserve)
  {
    ReturnedReadsBack(quote.Values(), 1);
    ReturnedReadsBack(quote.Values(), 3);
    ReturnedReadsBack(quote.Values(), 4);
    ReturnedReadsBack(quote.Values(), 5);
  }

  /** What getNftDebtData returns. */
  datatype Loan = Loan(loanId: nat, reserve: string, totalCollateral: nat, totalDebt: nat, availableBorrows: nat,
                       healthFactor: nat)
  {
    function Values(): seq<Arg> {
      [UintArg(loanId), AddressArg(reserve), UintArg(totalCollateral), UintArg(totalDebt), UintArg(availableBorrows),
       UintArg(healthFactor)]
    }
  }

  /** There is something to repay exactly if there is a loan with a debt, and then it is the total debt. */
  lemma DebtDecides(nft: string, tokenId: int, loan: Loan, debt: nat)
    requires AllValid(loan.Values())
    ensures var o := Called(POOL, DebtData(nft, tokenId), Returned(loan.Values()));
            && (DebtAnswer(o, nft, tokenId, debt) <==> loan.loanId != 0 && loan.totalDebt == debt && debt != 0)
            && (NoDebtAnswer(o, nft, tokenId) <==> loan.loanId == 0 || loan.totalDebt == 0)
  {
    ReturnedReadsBack(loan.Values(), 0);
    ReturnedReadsBack(loan.Values(), 2);
    ReturnedReadsBack(loan.Values(), 3);
    ReturnedReadsBack(loan.Values(), 4);
  }

  /** An empty answer: no allowance, no owner, nobody approved, no quote, no debt. */
  lemma EmptyAnswers(raw: string, nft: string, tokenId: int, owner: string, spender: string, amount: int)
    requires raw == "" || raw == "0x"
    ensures AllowanceAnswer(Called(USDC, Allowance(owner, spender), raw), USDC, owner, spender, amount) <==> amount <= 0
    ensures ShortAnswer(Called(USDC, Allowance(owner, spender), raw), USDC, owner, spender, amount) <==> amount > 0
    ensures NotOwnerAnswer(Called(nft, OwnerOf(tokenId), raw), nft, tokenId, owner)
    ensures UnapprovedAnswer(Called(nft, GetApproved(tokenId), raw), nft, tokenId)
    ensures NoQuoteAnswer(Called(POOL, CollateralData(nft, USDC), raw), nft, amount)
    ensures NoDebtAnswer(Called(POOL, DebtData(nft, tokenId), raw), nft, tokenId)
  {
  }

  /** Targets, accounts and the chain are compared whatever the case of the letters: exactly the pool, the
      token, the collections and the vault may be sent to. */
  lemma TargetsExactly(target: string, allowed: string)
    requires Lower(target) == Lower(allowed)
    ensures allowed == POOL || allowed == USDC || allowed in COLLECTIONS ==> FixedTarget(target)
    ensures VaultMatches(Vault(target, Some(allowed)))
    ensures forall accounts :: allowed in accounts ==> Lists(accounts, target)
  {
    forall accounts | allowed in accounts ensures Lists(accounts, target) {
      var i :| 0 <= i < |accounts| && accounts[i] == allowed;
    }
  }

  lemma OtherTargetsRefused(target: string, vault: Option<string>)
    requires Lower(target) != Lower(POOL) && Lower(target) != Lower(USDC)
    requires forall c :: c in COLLECTIONS ==> Lower(target) != Lower(c)
    requires vault.Some? ==> Lower(target) != Lower(vault.value)
    ensures !FixedTarget(target) && !VaultMatches(Vault(target, vault)) && Refuses(Vault(target, vault))
  {
  }

  /** The chain is the one with number 143. */
  lemma {:induction false} ChainNumber(p: nat, number: nat)
    ensures OnMonad(Chain(p, "0x" + ToHex(number))) <==> number == 143
    ensures forall id :: OnMonad(Chain(p, Lower(id))) <==> OnMonad(Chain(p, id))
  {
    forall id ensures Lower(Lower(id)) == Lower(id) {
      LowerTwice(id);
    }
    LowerHex(number);
    assert Lower("0x" + ToHex(number)) == "0x" + ToHex(number);
    assert ToHex(143) == ToHex(8) + ['f'] == "8f";
    if "0x" + ToHex(number) == CHAIN_ID {
      assert ToHex(number) == ("0x" + ToHex(number))[2..] == CHAIN_ID[2..] == "8f";
      ParseToHex(number);
      ParseToHex(143);
    }
  }
}
