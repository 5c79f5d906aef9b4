# Lender: verified model of the client and deployment logic

A Dafny model of the stateful and algorithmic code around the Lender contracts, with proofs.
`dafny verify dfyconfig.toml` checks the whole project.

**Wallet session protocol** (`frontend/js/wallet.js`). `WalletState` holds the module-level variables as one
value and the effect of every synchronous stretch of code on it. `WalletProtocol` cuts every exported async
function at its awaits, keeps the calls in flight with the point each waits at, and lets their pieces and
the provider events interleave in any order: an event list is a schedule, `Run` executes it, and an event
that cannot happen in a state leaves the state as it is. Everything the outside world answers is part of the
event that delivers it. `WalletInvariants`, `WalletStaleness` and `WalletReload` prove what all runs keep,
`WalletPaths` that each call goes on from answer to answer to its end. `WalletSegments` says what one
segment means for the connection, and that it depends on nothing else in flight. `WalletSession` is the same
client as a class whose fields are the module's variables, and `WalletPage` drives it through any schedule,
in the very states of the runs. The assumptions are that providers implement `on` and `removeListener` as in
the Events section of EIP-1193 and that neither throws. A provider event that arrives while `disconnect` is
being called is an event right after that segment, since nothing follows the call there.

Findings about the wallet code, each a lemma:

* A WalletConnect attempt that the user aborts while `eth_accounts` is pending is installed all the same
  (line 356 is the one await no generation check follows); that is the only way an aborted attempt can
  commit.
* A silent reconnect that another operation overlaps can leave a provider under the wrong session key, and
  a run from a fresh page that does so is given. A run keeps the keys right throughout if and only if
  `KeysAllow` holds every time a silent reconnect resumes.

**Library linker** (`helpers/contracts-helpers.ts`). Three nested loops over link references, proved against
a fold of splices, which is then shown to put every address where its fixup says, to touch nothing else, and
to depend only on the set of overwrites.

**Mint allocator** (`tasks/dev/mock_nfts.ts`, with the token contract of `contracts/mock/MintableERC721.sol`
while no faucet is set). The scan over signers with its cached count, proved to mint exactly as many tokens
as the signers' room and the unminted ids allow, up to the first unminted id out of the contract's range,
which ends the run with a revert if there is room left when it comes up. Signers need not be distinct: room
is counted once for each address. The signers' gas funding does not affect the counts.

**Position store** (`frontend/js/app.js`). The 25-entry list against the unbounded list it abbreviates, from
any stored list without duplicates.

**Call data and pool client** (`frontend/js/pool.js`). The word codec as inverse functions, the layout of
all nine requests in the static-type encoding of the "Formal Specification of the Encoding" section of the
Solidity Contract ABI Specification, and the supply, borrow and repay flows against a wallet and a chain
that may answer anything, with the connected account and provider free to change at every await. The log
records requests in structured form; `CallData.Data` is the string each stands for. `PoolAnswers` says what
the values that the contracts return mean for the flows. The allowance that supply reads is the one of the
account connected when it starts; the code reads the account again for the deposit, so after an account
switch the two can differ (`SwitchedSupplyDeposits`). `PoolSigners` proves for all three flows that a
transaction is signed by the account that was checked if and only if that account was the last one read, and
that without a switch it is.

**Supporting algorithms.** Reserve initialisation (`helpers/init-helpers.ts`) with `chunk`
(`helpers/misc-utils.ts`), verification retries (`helpers/etherscan-verification.ts`), the carousel
arithmetic and the agreement of the two USDC amount checks (`frontend/js/app.js`, over exact arithmetic).
Two reserves that share a strategy name get the rates of the first one (`SharedNameTakesFirstRates`);
`OwnRatesExactlyIf` says exactly when every record carries the address of its own reserve's rates.

## Model

| member | source | states |
|---|---|---|
| WalletInvariants.ListenersOnTheProviderOnly | frontend/js/wallet.js:72-142 | in every run of any interleaving, the bound provider is the current one, it carries its flag and exactly one copy of each handler, every other provider carries none |
| WalletInvariants.AddressBelongsToProvider | frontend/js/wallet.js:20-28 | in every run, and in every snapshot a listener was ever shown, an address is set exactly while a provider is, and that provider reported it |
| WalletInvariants.LockHeldByTheCurrentAttempt | frontend/js/wallet.js:313-324 | in every run the lock is held exactly while a current attempt is in flight, there is at most one, and no run that has no attempt left holds the lock |
| WalletInvariants.RunsStayConsistent | frontend/js/wallet.js:98-142 | the inductive invariant behind the three: handlers, reported addresses, distinct ordered generations, from any stored keys |
| WalletInvariants.InstallMovesHandlers | frontend/js/wallet.js:130-142 | each of the three ways to install a provider moves the handlers from the old provider to the new one and duplicates none |
| WalletInvariants.ResumeShape | frontend/js/wallet.js:321-384 | a resumed call waits again under the same generation with the lock untouched, or ends; only an ending attempt may release the lock |
| WalletInvariants.AttemptsStep | frontend/js/wallet.js:313-384 | every event keeps generations distinct and the lock tied to the current attempt |
| WalletStaleness.GenerationStep | frontend/js/wallet.js:313-324 | the generation grows by one on an abort and on a start that finds the lock free, and never otherwise |
| WalletStaleness.StaleExactlyIfAborted | frontend/js/wallet.js:313-324 | over any run, an attempt in flight is stale if and only if the user aborted since it was current; no further attempt can overtake it |
| WalletStaleness.AbortSpends | frontend/js/wallet.js:331-356 | an abort leaves an attempt without any write to the connection, unless it is waiting for eth_accounts |
| WalletStaleness.SpentAttemptIsInert | frontend/js/wallet.js:331-370 | an attempt aborted before its second generation check never again changes provider, address, session keys, handlers or what listeners see, however the run goes on, and never commits |
| WalletStaleness.CommitsAreCurrentUnlessAborted | frontend/js/wallet.js:352-370 | a committing attempt is current if and only if the user has not aborted since it started; every abort it survived fell into its eth_accounts request, so a commit from accounts already filled in is current |
| WalletStaleness.AbortDuringAccountsRequestConnects | frontend/js/wallet.js:354-368 | from every state with an attempt waiting for eth_accounts, abort and then answer installs the stale attempt |
| WalletStaleness.AccountsRequestIsReachable | frontend/js/wallet.js:321-356 | such a state is reached from a fresh page |
| WalletReload.SilentStepKeepsKindExactlyIf | frontend/js/wallet.js:392-432 | in every interleaving, a segment of a silent reconnect keeps the session keys naming the installer if and only if it finds the keys and provider it counts on |
| WalletReload.OtherStepsKeepKind | frontend/js/wallet.js:98-120 | no segment of any other operation and no provider event makes the keys name anything but the installer |
| WalletReload.OverlapStoresTheWrongKind | frontend/js/wallet.js:226-247 | an injected connect that completes inside a silent WalletConnect reconnect leaves the WalletConnect provider under the injected key |
| WalletReload.OverlapIsReachable | frontend/js/wallet.js:226-247 | a run from a fresh page with a stored WalletConnect session ends in that failure |
| WalletReload.KeysNameTheInstallerExactlyIf | frontend/js/wallet.js:392-432 | in every run of any interleaving, the stored kind and rdns are those of the operation that installed the current provider throughout, if and only if every silent reconnect finds the keys and provider it counts on whenever it resumes |
| WalletReload.KeysNameTheInstaller | frontend/js/wallet.js:392-432 | this is so in every run in which nothing connects, disconnects or touches the keys while a silent reconnect is at work, whatever else happens meanwhile |
| WalletReload.ReloadRestoresTheSameConnector | frontend/js/wallet.js:392-432 | after a reload the reconnect restores nothing or a provider under the connector kind that was connected, an injected one only as announced under the same rdns |
| WalletReload.ReloadRestoresAnAnnouncedWallet | frontend/js/wallet.js:413-427 | an injected wallet that is announced again and reports an account is restored |
| WalletReload.ReloadRestoresALiveSession | frontend/js/wallet.js:392-409 | a WalletConnect session that is still live and shows an account is restored, under the same key |
| WalletReload.LogoutLeavesNothingToRestore | frontend/js/wallet.js:98-107 | after a logout the reconnect of the next page load restores nothing |
| WalletPaths.FirstPairing | frontend/js/wallet.js:321-384 | from every state with the lock free and no WalletConnect provider: the package is loaded, the provider created, and without a session it is paired; its first account is shown under the WalletConnect key, and the call ends and frees the lock once the chain was asked for |
| WalletPaths.CurrentAttemptGoesOn | frontend/js/wallet.js:326-384 | a current attempt that is answered ends only after it asked for the chain, or after it found no account |
| WalletPaths.StaleAttemptEnds | frontend/js/wallet.js:331-352 | one that is not current ends at either check and changes nothing |
| WalletPaths.LiveSessionConnects | frontend/js/wallet.js:345-368 | a live session that shows accounts is connected without pairing |
| WalletPaths.DeadProviderIsDropped | frontend/js/wallet.js:326-330 | a provider whose session is gone is dropped first, and the attempt starts over |
| WalletPaths.AccountsAreAskedFor | frontend/js/wallet.js:354-368 | a session or pairing that shows no account is asked for one, and the answer connects |
| WalletPaths.NoAccountGivesUp | frontend/js/wallet.js:357-360 | if there is none, the provider is dropped, the connection stays as it is, and the call ends and frees the lock |
| WalletPaths.FailureEndsCall | frontend/js/wallet.js:375-383 | a failed request ends its call; only a current attempt frees the lock, and nothing else changes |
| WalletPaths.AbortExactly | frontend/js/wallet.js:313-319 | an abort outdates the attempt, frees the lock, and drops a provider exactly if it has no session |
| WalletPaths.InjectedPath | frontend/js/wallet.js:226-247 | an injected connect shows the first account reported, under the rdns given, asks for the chain and ends |
| WalletPaths.InjectedPathBehindWalletConnect | frontend/js/wallet.js:232-240 | another WalletConnect provider is dropped first, and then the same |
| WalletPaths.InjectedShowsItsFirstAccount | frontend/js/wallet.js:231-240 | in any interleaving, it is the first account of the answer to its own request that is shown |
| WalletPaths.SilentAsksForAccounts | frontend/js/wallet.js:395-409 | a silent reconnect asks a session that shows no account, and restores the first one answered |
| WalletPaths.SilentForgets | frontend/js/wallet.js:410-412 | without session or account it drops the stored kind and the provider, and ends |
| WalletPaths.FirstMatch | frontend/js/wallet.js:416-416 | the wallet restored is the first one announced under the stored rdns |
| WalletPaths.ProviderEventsExactly | frontend/js/wallet.js:109-128 | events of the current provider reach the client exactly once, those of any other provider change nothing |
| WalletSegments.SegmentIsLocal | frontend/js/wallet.js:226-432 | what a resumed call does depends on the wallet, its own waiting point and the answer only, whatever else is in flight, and it leaves the other calls alone |
| WalletSegments.StartIsLocal | frontend/js/wallet.js:226-414 | the same for the first stretch of a call |
| WalletSegments.BindingIsHandedOver | frontend/js/wallet.js:130-142 | binding leaves each handler once on the new provider and none on any other, wherever they were before; binding again changes nothing |
| WalletSegments.LogoutLeavesNothing | frontend/js/wallet.js:98-107 | after a logout no provider carries a handler, nothing is shown or left to restore, listeners were told once that nothing is connected, an attempt in flight keeps its lock; a second logout only notifies again |
| WalletSegments.AccountsAreFollowed | frontend/js/wallet.js:109-120 | an account report either moves the address to the first account, with provider, handlers and stored kind kept, or leaves nothing connected; one notification, true of the new state |
| WalletSegments.RunsConnectExactlyIf | frontend/js/wallet.js:98-432 | in every run, a provider and account come to be shown exactly when a call resumes that has its accounts and passes its checks, with handlers in place and listeners told; otherwise the account only changes to one the current provider has just reported, and every other event leaves both or takes both away |
| WalletSegments.StartTakesTheLock | frontend/js/wallet.js:321-330 | a start is refused if and only if the lock is held; otherwise it holds the lock under a new generation of its own and touches no connection |
| WalletSegments.DiscoveryMatchesExactlyIf | frontend/js/wallet.js:413-421 | the injected reconnect goes on with a wallet announced under the stored rdns, or drops both keys if and only if there is none |
| WalletPage.RunPage | frontend/js/wallet.js:1-442 | a page that executes any schedule on the class goes through exactly the states of the runs; so its handlers sit on its provider only, address and provider are set together, and its lock is held exactly while a current attempt is in flight |
| WalletPage.Page.Deliver | frontend/js/wallet.js:72-442 | every event, delivered to the class and its calls in flight, has exactly the effect it has in the runs |
| WalletSession.Session.UnbindProvider | frontend/js/wallet.js:72-84 | removes one copy of each handler and the flag, and forgets the binding if it was this provider's |
| WalletSession.Session.DispatchAccountsChanged | frontend/js/wallet.js:138-138 | an event runs every registered copy of the handler |
| Linker.LinkBytecode | helpers/contracts-helpers.ts:150-171 | the three loops compute the fold of all overwrites of libraries with an address |
| Linker.FixupHoldsAddress | helpers/contracts-helpers.ts:162-167 | for fixups that are in range and pairwise disjoint or equal, the linked code has the same length and each fixup of a library with an address holds that address |
| Linker.UncoveredCharacterStays | helpers/contracts-helpers.ts:155-160 | every character outside those fixups, placeholders of libraries without an address included, is unchanged |
| Linker.LinkingIsOrderIndependent | helpers/contracts-helpers.ts:153-162 | tables that refer to the same libraries at the same fixups give the same code |
| Linker.RearrangedTablesLinkAlike | helpers/contracts-helpers.ts:153-162 | files, the libraries of a file and the fixups of a library in another order, or repeated, give the same code |
| Linker.PermutedFilesLinkAlike | helpers/contracts-helpers.ts:153-154 | any permutation of the files gives the same code |
| Linker.PatchesExactly | helpers/contracts-helpers.ts:153-162 | what is overwritten is exactly the fixups that the tables refer to, for libraries with an address |
| Linker.LinkingIsIdempotent | helpers/contracts-helpers.ts:150-171 | linking linked code again changes nothing |
| Linker.SpliceKeepsLengthExactlyIf | helpers/contracts-helpers.ts:163-166 | an overwrite in range keeps the length if and only if the address has the length of the range |
| MintAllocator.MintTopTokens | tasks/dev/mock_nfts.ts:114-162 | the scan with cached minter and count leaves the contract and ends exactly as the step-by-step allocation does |
| MintAllocator.MintsAsManyAsPossible | tasks/dev/mock_nfts.ts:119-162 | for any ids: it mints min(room of the signers, distinct unminted ids in front of the first id the contract refuses) tokens, never from a signer at the cap, all to the target; it reverts if and only if room is left when that id comes up, gives up early if and only if no room is left when it comes to that id or to the last one, and leaves tokens of others alone |
| MintAllocator.OutOfRangeIdEndsTheRun | tasks/dev/mock_nfts.ts:137-160 | an accepted list with an id from 10000 on reverts there, with room left for the ids behind it |
| MintAllocator.AllocationKeeps | tasks/dev/mock_nfts.ts:122-135 | throughout, signers in front of the scan position are at the cap, the cached count is the chain's, mints balance the room used, and a revert takes an unminted id out of range |
| MintAllocator.RunHandsOver | tasks/dev/mock_nfts.ts:149-161 | at every id behind which the run goes on: the token is with the target afterwards if it is new or was with the signer serving it, and stays with anyone else; no other token moves, and only the minter's count grows, by one for a new token |
| MintAllocator.LeftoverIsHandedOver | tasks/dev/mock_nfts.ts:152-153 | a token minted but not handed over before is handed over when its id comes up |
| MintAllocator.Token.Mint | contracts/mock/MintableERC721.sol:26-39 | refused past ten mints, for ids from 10000 on and for existing ids; otherwise counts and assigns |
| MintAllocator.Scan | tasks/dev/mock_nfts.ts:123-132 | the first signer from the position on that is below the cap, all skipped ones being at it |
| Positions.SavedIsNewestFirst | frontend/js/app.js:61-71 | a save leaves the saved position in front, no other entry of its token, and behind it the newest of the other entries in their old order, all of them unless 25 are reached |
| Positions.OtherPositionsStay | frontend/js/app.js:62-69 | a stored position whose lower-cased collection or token id differs from the saved one is still read back if there is room |
| Positions.SamePositionIsReplaced | frontend/js/app.js:62-69 | one whose collection and token id agree is replaced, whatever the letter case |
| Positions.HashesExactly | frontend/js/app.js:55-55 | a hash is accepted exactly if it is 0x and 64 hex digits, as the chain prints one |
| Positions.LoadsInOrder | frontend/js/app.js:51-59 | what is read back is every stored entry with an accepted hash, in order |
| Positions.DistinctExactlyIf | frontend/js/app.js:64-68 | a list is without duplicates, as the other results understand it, if and only if no two entries are of the same token |
| Positions.StoredIsNewestOfUnbounded | frontend/js/app.js:51-71 | after any saves with valid hashes the list read back is the first 25 of the unbounded list: saves no later save of the same token replaces, newest first, then surviving older entries |
| Positions.UnboundedOneMore | frontend/js/app.js:62-69 | moving a token to the front of the unbounded list agrees with its definition by later replacements |
| Positions.UnboundedDistinct | frontend/js/app.js:62-68 | the unbounded list never holds two entries of a token |
| Positions.CutCommutes | frontend/js/app.js:70-70 | in a list without duplicates, cutting before or after removing a token keeps the same leading entries |
| Positions.MalformedHashIsForgotten | frontend/js/app.js:55-70 | a position saved with a malformed hash is not read back though it has replaced its token's entry |
| AbiWords.PadUintWord | frontend/js/pool.js:23-31 | a padded number is one word if and only if it is below 2^256, and reads back as itself |
| AbiWords.PadAddrWord | frontend/js/pool.js:20-34 | a padded address is one word whose last 40 digits are the address in lower case |
| AbiWords.HexLength | frontend/js/pool.js:23-25 | a number prints in at most k hex digits if and only if it is below 16^k |
| CallData.WordsReadBack | frontend/js/pool.js:29-34 | reading the i-th of any number of encoded words gives back the i-th argument |
| CallData.RequestReadsBack | frontend/js/pool.js:186-239 | the data of each of the nine requests is its selector and one aligned word per declared parameter, each reading back as that parameter |
| CallData.DepositRead | contracts/interfaces/ILendPool.sol:180-185 | deposit data reads place by place as the asset, amount, beneficiary and referral code 0 the pool declares |
| CallData.BorrowRead | contracts/interfaces/ILendPool.sol:219-226 | borrow data reads place by place as the six parameters the pool declares |
| CallData.RepayRead | contracts/interfaces/ILendPool.sol:245-249 | repay data reads place by place as the collection, token id and amount the pool declares |
| CallData.TokenCallsRead | frontend/js/pool.js:100-176 | and the data of the other six requests as theirs |
| CallData.TypedTokenId | frontend/js/config.js:91-93 | a number typed in decimal is a token id exactly if it has at most 78 digits, and is read as itself |
| CallData.ShortTokenIdFits | frontend/js/config.js:91-93 | every accepted token id of at most 77 digits is a 256-bit number |
| CallData.TokenIdWidth | frontend/js/config.js:91-93 | an accepted token id takes one word, or exactly one digit more when it is not a 256-bit number |
| CallData.TokenIdCanExceedWord | frontend/js/config.js:91-93 | the id of 78 nines is accepted and is not a 256-bit number |
| CallData.RequestReadsBackExactlyIf | frontend/js/pool.js:186-239 | for checked addresses and numbers of any size and sign, the data of a request reads back as its arguments if and only if every number is a 256-bit number |
| CallData.FirstInvalidMisreads | frontend/js/pool.js:23-31 | the first number that is none does not read back from its own place, while every argument in front of it does |
| CallData.RepayAlignedExactlyIf | frontend/js/pool.js:237-240 | repay data keeps its three words if and only if the accepted token id is a 256-bit number |
| CallData.BorrowAlignedExactlyIf | frontend/js/pool.js:209-218 | borrow data keeps its six words if and only if the accepted token id is a 256-bit number, and is one digit too long otherwise |
| PoolClient.AssertActiveAccount | frontend/js/wallet.js:442-459 | asks the connected provider for its accounts, and only if they list the account, the then connected provider for its chain; passes exactly if that is the right one; submits nothing |
| PoolClient.EnsureMonad | frontend/js/wallet.js:181-213 | asks this provider to switch, first and once; asks it to add the chain exactly if it does not know it; only then asks which chain it is on, and passes exactly if it is the right one |
| PoolClient.PassChecks | frontend/js/pool.js:36-76 | makes the checks in front of a submission in this order, each only after the one before it passed, and passes exactly after the last one |
| PoolClient.WaitReceipt | frontend/js/pool.js:84-94 | asks at most 60 times, succeeds if and only if the last answer is a successful receipt, and otherwise stops at a failed one, an error or 60 empty answers |
| PoolClient.SendTx | frontend/js/pool.js:58-82 | submits at most one transaction, the given one, signed by the account connected at the call, which is read last in front of it, to an allowed target, after fresh account and chain checks, the provider used being the connected one, just asked to switch to the chain and found on it; it returns a hash after a successful receipt and fails only when the last thing observed is a reason to give up |
| PoolClient.GuardedInExtension | frontend/js/pool.js:58-82 | what a log says about a submission is not undone by what happens later |
| PoolFlows.EnsureErc20Allowance | frontend/js/pool.js:159-165 | approves the amount at most once, signed by the account read last in front of the submission, and only if the allowance read for the connected account is short; passes if the allowance suffices or the approval was confirmed, and fails only for an observed reason |
| PoolFlows.EnsureNftApproved | frontend/js/pool.js:167-176 | approves the token at most once, signed by the account read last in front of the submission, and only if the pool is not the approved address; passes if it is or the approval was confirmed, and fails only for an observed reason |
| PoolFlows.SupplyUsdc | frontend/js/pool.js:178-195 | submits at most one guarded approval, of an allowance found short, and then at most one guarded deposit of the same positive units for the signer, after the allowance was settled; success means a confirmed deposit, failure a bad amount or an observed reason to stop |
| PoolFlows.BorrowUsdc | frontend/js/pool.js:197-220 | every submission follows proof of ownership and a quote covering the positive units: at most one approval, of a token found not approved, and then at most one borrow for the signer, after the approval was settled; success means a confirmed borrow, failure bad input or an observed reason to stop |
| PoolFlows.RepayLoan | frontend/js/pool.js:222-242 | every submission follows a reported loan: at most one approval, of an allowance found short, and then at most one repayment, after the allowance of the account then connected was read and settled, and for the whole debt if no amount is given; success means a confirmed repayment, failure bad input or an observed reason to stop |
| PoolFlows.TraceRepaysAsAsked | frontend/js/pool.js:228-231 | every approval and repayment is of the whole debt the pool reported if no amount is given, and else of the units nearest to the amount |
| PoolAnswers.AllowanceDecides | frontend/js/pool.js:159-165 | an approval is needed exactly if the number returned by allowance is below the amount |
| PoolAnswers.OwnerDecides | frontend/js/pool.js:100-115 | the account owns the token exactly if ownerOf returns its address, whatever the letter case |
| PoolAnswers.ApprovedDecides | frontend/js/pool.js:167-172 | an approval of the token is needed exactly if getApproved does not return the pool |
| PoolAnswers.QuoteDecides | contracts/interfaces/ILendPool.sol:362-373 | of the seven numbers of the quote, the borrow is held against what is available in the reserve |
| PoolAnswers.DebtDecides | contracts/interfaces/ILendPool.sol:386-396 | there is something to repay exactly if the loan id and the total debt are not zero, and then it is the total debt |
| PoolAnswers.EmptyAnswers | frontend/js/pool.js:117-147 | an empty answer counts as no allowance, no owner, no approval, no quote and no debt |
| PoolAnswers.TargetsExactly | frontend/js/pool.js:62-76 | the pool, the token, the collections and the vault may be sent to, in any letter case |
| PoolAnswers.OtherTargetsRefused | frontend/js/pool.js:74-76 | any other target is refused |
| PoolAnswers.ChainNumber | frontend/js/wallet.js:209-212 | the right chain is the one with number 143, in any letter case |
| PoolSigners.SupplySignersExactlyIf | frontend/js/pool.js:159-195 | whoever is checked for allowance signs and is deposited for if and only if it is the account read last in front of the submission; without an account switch it is, and the deposit follows its own sufficient allowance or its own confirmed approval |
| PoolSigners.BorrowSignersExactlyIf | frontend/js/pool.js:104-111 | the account named as owner of the token signs and is borrowed for if and only if it is the account read last; without an account switch it is, and an approval was found or is its own |
| PoolSigners.RepaySignersExactlyIf | frontend/js/pool.js:222-242 | the account whose allowance was read signs if and only if it is the account read last; without an account switch it is, and its own allowance or approval covers the units |
| PoolSigners.SwitchedSupplyDeposits | frontend/js/pool.js:178-193 | a supply during which the user switches accounts keeps all its promises and deposits from the second account |
| ReserveInit.InitReserves | helpers/init-helpers.ts:61-131 | all batches together are the records of the reserves with a token address in configuration order; each strategy name in use is deployed once, and each record carries the address deployed for its own strategy name |
| ReserveInit.RecordsSpellReserves | helpers/init-helpers.ts:100-112 | each record spells out its own reserve: address, decimals, implementations, treasury, names and symbols |
| ReserveInit.DeploymentsSpellRates | helpers/init-helpers.ts:80-89 | each deployment is made with the addresses provider and, in order, the four rates of the first reserve that uses its name |
| ReserveInit.ConfiguredInOrder | helpers/init-helpers.ts:73-77 | the reserves initialised are those whose symbol has a token address that is not empty, in order |
| ReserveInit.FirstUsesAreDistinct | helpers/init-helpers.ts:80-94 | no strategy name is deployed twice |
| ReserveInit.FirstUsesNames | helpers/init-helpers.ts:80-94 | the names deployed are exactly the names in use |
| ReserveInit.OwnRatesExactlyIf | helpers/init-helpers.ts:80-89 | every record carries the address of a deployment made with its own reserve's rates if and only if no two reserves share a strategy name and differ in its rates |
| ReserveInit.SharedNameTakesFirstRates | helpers/init-helpers.ts:80-89 | of two reserves that do, the second is initialised with the rates of the first |
| Chunks.ChunksFlattenBack | helpers/misc-utils.ts:88-94 | flattening the chunks gives the array back |
| Chunks.ChunkSizes | helpers/misc-utils.ts:88-94 | as many chunks as needed, all full but the last, which has between one element and the size |
| Chunks.ChunksStayPaired | helpers/init-helpers.ts:117-130 | two arrays of the same length cut the same way keep their elements paired |
| Retry.RunTaskWithRetry | helpers/etherscan-verification.ts:67-111 | terminates for every number of tries and every outcome, with a permitted trace of runs and cleanups |
| Retry.TraceShape | helpers/etherscan-verification.ts:77-110 | every permitted trace has at most the allowed runs, then exactly one cleanup, or none if the last run ended in a stopping error |
| Retry.RelatedSourcesExactly | helpers/etherscan-verification.ts:81-108 | a run uses related sources if and only if the call did, another run was still allowed, and no earlier run reported that it was unable to verify |
| Carousel.WrapIsModulo | frontend/js/app.js:203-205 | with the truncating remainder, the wrapped index is the Euclidean one for every integer |
| Carousel.RotationsCompose | frontend/js/app.js:225-227 | rotations add up, and a full turn changes nothing |
| Carousel.OffsetIsShortest | frontend/js/app.js:207-213 | the offset of a card leads round the wheel to it, and no shorter one does |
| Carousel.ShownExactlyIf | frontend/js/app.js:207-213 | a card is shown exactly if it can be reached in at most two steps, in the slot that says how |
| Carousel.SlotsAreDistinct | frontend/js/app.js:211-212 | no two cards share a visible slot |
| UsdcAmounts.UnitsExactlyNearest | frontend/js/config.js:108-112 | the units of an amount are the whole millionths nearest to it, a half going up |
| UsdcAmounts.WizardLimitExactly | frontend/js/app.js:398-403 | the wizard accepts exactly the positive amounts up to a billionth above the quote |
| UsdcAmounts.UnitsRoundTrip | frontend/js/config.js:108-116 | units to amount to units is the identity |
| UsdcAmounts.WithinQuoteExactlyIf | frontend/js/pool.js:203-207 | the pool client's limit check passes if and only if the amount is below half a unit above the maximum |
| UsdcAmounts.WizardAgreesWithPool | frontend/js/app.js:394-405 | an amount the wizard accepts never exceeds the same quote in the pool client, which refuses it only if it rounds to nothing |

## Left out

- The `display_uri` handler of a WalletConnect attempt: it only passes pairing codes to the dialog and no other state depends on it.
- `connectWallet`: after discovery it is a start of one of the two connects, which the runs contain.
- `discoverInjected`: its map of announced wallets is part of the answers; `EthereumProvider.init`, package loading and QR rendering are arbitrary answers.
- The value a connect returns: it is read from the shared address after the chain switch and may belong to a later connection.
- Uniqueness of the live WalletConnect provider across overlapping `init` calls: the code does not guard it.
- Non-ASCII letters under `toLowerCase`, and IEEE-754 rounding: amounts are reals.
- Retry.RunTaskWithRetry: does not model a cleanup that throws, because the cleanup is assumed not to throw; delays and messages are left out.
- MintAllocator.MintTopTokens: does not model a transfer that reverts, because the target is a proper address; funding of signers and balances are left out.
- ReserveInit.InitReserves: contract addresses are looked up by a fixed function and deployments return non-empty addresses; `configureReservesByHelper` and the NFT counterparts have the same shape and are not modelled.
- The pauses between receipt requests have no length.
- Negative repay amounts, which the code does not refuse, are followed through the flow; their call data, which is no proper word, is only shown not to read back.
- `borrowFromVault` and the passkey vault, DOM rendering, deployment and printing scripts, market configuration tables.
- The Solidity protocol contracts.
