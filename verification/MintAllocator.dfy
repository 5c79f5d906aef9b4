/** Minting a list of token ids from a row of signers, each of which the token contract lets mint ten
    times. */
module MintAllocator {
  import opened Wrappers

  type Address = string

  const CAP := 10
  const MAX_TOKEN_ID := 10000

  /** What the token contract stores; an address without an entry has minted nothing. */
  datatype Chain = Chain(counts: map<Address, nat>, owners: map<nat, Address>)

  function Count(chain: Chain, a: Address): nat {
    if a in chain.counts then chain.counts[a] else 0
  }

  /** The contract's mint: refused past the cap, for ids out of range and for ids that exist. */
  predicate CanMint(chain: Chain, sender: Address, id: nat) {
    Count(chain, sender) + 1 <= CAP && id < MAX_TOKEN_ID && id !in chain.owners
  }

  /** The contract refuses this id to every signer, so asking for it ends the run. */
  predicate Refused(start: Chain, id: nat) {
    id >= MAX_TOKEN_ID && id !in start.owners
  }

  function Minted(chain: Chain, sender: Address, id: nat): Chain {
    Chain(chain.counts[sender := Count(chain, sender) + 1], chain.owners[id := sender])
  }

  function Transferred(chain: Chain, id: nat, to: Address): Chain {
    chain.(owners := chain.owners[id := to])
  }

  datatype Mint = Mint(signer: Address, id: nat, countBefore: nat)

  datatype Status = Running | OutOfSigners | Reverted

  /** The minting run between two ids: the chain, its scan position, its cached count, and what it minted. */
  datatype Progress = Progress(chain: Chain, index: nat, limit: int, status: Status, mints: seq<Mint>)

  function Begin(chain: Chain): Progress {
    Progress(chain, 0, -1, Running, [])
  }

  /** The first signer from index on that may still mint, or the end of the row. */
  function Scan(signers: seq<Address>, chain: Chain, index: nat): (r: nat)
    requires index <= |signers|
    ensures index <= r <= |signers|
    ensures forall j :: index <= j < r ==> Count(chain, signers[j]) >= CAP
    ensures r < |signers| ==> Count(chain, signers[r]) < CAP
    decreases |signers| - index
  {
    if index == |signers| || Count(chain, signers[index]) < CAP then index else Scan(signers, chain, index + 1)
  }

  function Choose(signers: seq<Address>, p: Progress): (r: Progress)
    requires p.index <= |signers|
  {
    if p.limit < 0 || p.limit >= CAP then
      var index := Scan(signers, p.chain, p.index);
      if index == |signers| then p.(index := index, status := OutOfSigners)
      else p.(index := index, limit := Count(p.chain, signers[index]))
    else
      p
  }

  /** Handling one id with the chosen signer: hand over a token the signer owns, skip a token of someone
      else, mint a token that does not exist. */
  function Serve(minter: Address, target: Address, p: Progress, id: nat): Progress {
    if id in p.chain.owners then
      if p.chain.owners[id] == minter then p.(chain := Transferred(p.chain, id, target)) else p
    else if CanMint(p.chain, minter, id) then
      p.(chain := Transferred(Minted(p.chain, minter, id), id, target), limit := p.limit + 1,
         mints := p.mints + [Mint(minter, id, Count(p.chain, minter))])
    else
      p.(status := Reverted)
  }

  /** The scan position stays inside the row, and where it matters it points at a signer. */
  predicate InRow(signers: seq<Address>, p: Progress) {
    p.index <= |signers| && (p.status.Running? && p.limit >= 0 ==> p.index < |signers|)
  }

  function Next(signers: seq<Address>, target: Address, p: Progress, id: nat): (r: Progress)
    requires InRow(signers, p)
    ensures InRow(signers, r)
  {
    if !p.status.Running? then p
    else
      var q := Choose(signers, p);
      if q.status.Running? then Serve(signers[q.index], target, q, id) else q
  }

  function Allocate(signers: seq<Address>, target: Address, chain: Chain, ids: seq<nat>): (r: Progress)
    ensures InRow(signers, r)
  {
    if ids == [] then Begin(chain)
    else Next(signers, target, Allocate(signers, target, chain, ids[..|ids| - 1]), ids[|ids| - 1])
  }

  // ----- the run over the contract -----

  /** The token contract as the run sees it. */
  class Token {
    var counts: map<Address, nat>
    var owners: map<nat, Address>

    function State(): Chain
      reads this
    {
      Chain(counts, owners)
    }

    method MintCounts(a: Address) returns (n: nat)
      ensures n == Count(State(), a)
    {
      n := if a in counts then counts[a] else 0;
    }

    method OwnerOf(id: nat) returns (owner: Option<Address>)
      ensures owner == if id in owners then Some(owners[id]) else None
    {
      owner := if id in owners then Some(owners[id]) else None;
    }

    method Mint(sender: Address, id: nat) returns (ok: bool)
      modifies this
      ensures ok == CanMint(old(State()), sender, id)
      ensures State() == if ok then Minted(old(State()), sender, id) else old(State())
      ensures ok <==> Count(old(State()), sender) < 10 && id < 10000 && id !in old(owners)
      ensures ok ==> owners == old(owners)[id := sender] && Count(State(), sender) == Count(old(State()), sender) + 1
      ensures forall a :: a != sender ==> Count(State(), a) == Count(old(State()), a)
    {
      var n := MintCounts(sender);
      if n + 1 > CAP || id >= MAX_TOKEN_ID || id in owners {
        return false;
      }
      counts := counts[sender := n + 1];
      owners := owners[id := sender];
      return true;
    }

    method TransferFrom(id: nat, to: Address)
      modifies this`owners
      ensures State() == Transferred(old(State()), id, to)
    {
      owners := owners[id := to];
    }
  }

  method MintTopTokens(token: Token, signers: seq<Address>, ids: seq<nat>, target: Address)
    returns (status: Status, ghost final: Progress)
    modifies token
    ensures final == Allocate(signers, target, old(token.State()), ids)
    ensures token.State() == final.chain && status == final.status
  {
    var minterIndex := 0;
    var minterAddress := "";
    var minterLimit := -1;
    status := Running;
    final := Begin(token.State());
    ghost var start := token.State();
    for i := 0 to |ids|
      invariant status.Running?
      invariant final == Allocate(signers, target, start, ids[..i])
      invariant final == Progress(token.State(), minterIndex, minterLimit, status, final.mints)
      invariant minterIndex < |signers| && minterLimit >= 0 ==> minterAddress == signers[minterIndex]
    {
      var id := ids[i];
      assert ids[..i + 1][..i] == ids[..i];
      ghost var next := Next(signers, target, final, id);
      if minterLimit < 0 || minterLimit >= CAP {
        ghost var found := Scan(signers, token.State(), minterIndex);
        while minterIndex < |signers|
          invariant minterIndex <= |signers| && Scan(signers, token.State(), minterIndex) == found
          invariant token.State() == final.chain
        {
          minterAddress := signers[minterIndex];
          var tmpLimit := token.MintCounts(minterAddress);
          if tmpLimit < CAP {
            minterLimit := tmpLimit;
            break;
          }
          minterIndex := minterIndex + 1;
        }
        if minterIndex == |signers| {
          status := OutOfSigners;
          final := next;
          StoppedStays(signers, target, start, ids, i + 1);
          return;
        }
      }
      ghost var chosen := Choose(signers, final);
      var owner := token.OwnerOf(id);
      if owner.Some? {
        if owner.value == minterAddress {
          token.TransferFrom(id, target);
        }
        final := next;
      } else {
        var minted := token.Mint(minterAddress, id);
        if !minted {
          status := Reverted;
          final := next;
          StoppedStays(signers, target, start, ids, i + 1);
          return;
        }
        token.TransferFrom(id, target);
        minterLimit := minterLimit + 1;
        final := next;
      }
    }
    assert ids[..|ids|] == ids;
  }

  lemma {:induction false} StoppedStays(signers: seq<Address>, target: Address, chain: Chain, ids: seq<nat>, k: nat)
    requires k <= |ids| && !Allocate(signers, target, chain, ids[..k]).status.Running?
    ensures Allocate(signers, target, chain, ids) == Allocate(signers, target, chain, ids[..k])
    decreases |ids|
  {
    if k < |ids| {
      assert ids[..|ids| - 1][..k] == ids[..k];
      StoppedStays(signers, target, chain, ids[..|ids| - 1], k);
    } else {
      assert ids[..k] == ids;
    }
  }

  // ----- what it allocates -----

  function Room(chain: Chain, a: Address): nat {
    if Count(chain, a) < CAP then CAP - Count(chain, a) else 0
  }

  /** What the signers may still mint together, each counted once however often it is listed. */
  function Capacity(signers: seq<Address>, chain: Chain): nat {
    if signers == [] then 0
    else
      var before, last := signers[..|signers| - 1], signers[|signers| - 1];
      Capacity(before, chain) + if last in before then 0 else Room(chain, last)
  }

  function Unminted(ids: seq<nat>, chain: Chain): set<nat> {
    set id | id in ids && id !in chain.owners
  }

  lemma {:induction false} CapacityUsed(signers: seq<Address>, chain: Chain, chain': Chain, a: Address)
    requires Count(chain, a) < CAP && chain'.counts == chain.counts[a := Count(chain, a) + 1]
    ensures Capacity(signers, chain) == Capacity(signers, chain') + if a in signers then 1 else 0
  {
    if signers != [] {
      CapacityUsed(signers[..|signers| - 1], chain, chain', a);
    }
  }

  lemma {:induction false} CapacitySame(signers: seq<Address>, chain: Chain, chain': Chain)
    requires chain'.counts == chain.counts
    ensures Capacity(signers, chain) == Capacity(signers, chain')
  {
    if signers != [] {
      CapacitySame(signers[..|signers| - 1], chain, chain');
    }
  }

  lemma {:induction false} CapacityExhausted(signers: seq<Address>, chain: Chain)
    requires forall j :: 0 <= j < |signers| ==> Count(chain, signers[j]) >= CAP
    ensures Capacity(signers, chain) == 0
  {
    if signers != [] {
      CapacityExhausted(signers[..|signers| - 1], chain);
    }
  }

  /** Signers in front of the scan position are at the cap, the cached count is the chain's, and a run
      that ran out of signers has passed the whole row. */
  ghost predicate Accounted(signers: seq<Address>, p: Progress) {
    && InRow(signers, p)
    && (forall j :: 0 <= j < p.index ==> Count(p.chain, signers[j]) >= CAP)
    && (p.status.Running? && p.limit >= 0 ==> p.limit == Count(p.chain, signers[p.index]) <= CAP)
    && (p.status.OutOfSigners? ==> p.index == |signers|)
    && (forall m :: m in p.mints ==> m.signer in signers && m.countBefore < CAP)
  }

  /** The mints so far account for the capacity used. */
  predicate UsesRoom(signers: seq<Address>, start: Chain, p: Progress) {
    |p.mints| + Capacity(signers, p.chain) == Capacity(signers, start)
  }

  /** While it is running it has minted the unminted ids it has met, each once. */
  predicate MeetsIds(start: Chain, ids: seq<nat>, p: Progress) {
    && |p.mints| <= |Unminted(ids, start)|
    && (p.status.Running? ==>
          && |p.mints| == |Unminted(ids, start)|
          && p.chain.owners.Keys == start.owners.Keys + Unminted(ids, start))
  }

  /** Minted tokens were new and belong to the target. */
  predicate Delivered(target: Address, start: Chain, p: Progress) {
    && start.owners.Keys <= p.chain.owners.Keys
    && forall m :: m in p.mints ==>
         m.id !in start.owners && m.id in p.chain.owners && p.chain.owners[m.id] == target
  }

  /** Tokens of anyone but the signers are left where they are. */
  ghost predicate OthersUntouched(signers: seq<Address>, start: Chain, p: Progress) {
    forall id :: id in start.owners && start.owners[id] !in signers ==>
      id in p.chain.owners && p.chain.owners[id] == start.owners[id]
  }

  ghost predicate Balanced(signers: seq<Address>, target: Address, start: Chain, ids: seq<nat>, p: Progress) {
    UsesRoom(signers, start, p) && MeetsIds(start, ids, p) && Delivered(target, start, p) &&
    OthersUntouched(signers, start, p)
  }

  /** A signer is chosen and may mint. */
  predicate Ready(signers: seq<Address>, p: Progress) {
    p.status.Running? && p.index < |signers| && p.limit == Count(p.chain, signers[p.index]) < CAP
  }

  lemma {:induction false} ChooseKeeps(signers: seq<Address>, target: Address, start: Chain, ids: seq<nat>, p: Progress)
    requires Accounted(signers, p) && p.status.Running? && Balanced(signers, target, start, ids, p)
    ensures Accounted(signers, Choose(signers, p)) && Balanced(signers, target, start, ids, Choose(signers, p))
    ensures Choose(signers, p).status.Running? ==> Ready(signers, Choose(signers, p))
    ensures Choose(signers, p).status.OutOfSigners? ==> Capacity(signers, p.chain) == 0
  {
    if Choose(signers, p).status.OutOfSigners? {
      CapacityExhausted(signers, p.chain);
    }
  }

  lemma UnmintedOneMore(ids: seq<nat>, chain: Chain, id: nat)
    ensures Unminted(ids + [id], chain) == Unminted(ids, chain) + if id in chain.owners then {} else {id}
    ensures |Unminted(ids, chain)| <= |Unminted(ids + [id], chain)|
    ensures id !in chain.owners && id !in Unminted(ids, chain) ==>
              |Unminted(ids + [id], chain)| == |Unminted(ids, chain)| + 1
  {
    if id in chain.owners || id in Unminted(ids, chain) {
      assert Unminted(ids + [id], chain) == Unminted(ids, chain);
    } else {
      assert Unminted(ids + [id], chain) == Unminted(ids, chain) + {id};
    }
  }

  lemma ServeAccounts(signers: seq<Address>, target: Address, p: Progress, id: nat)
    requires Accounted(signers, p) && Ready(signers, p)
    ensures Accounted(signers, Serve(signers[p.index], target, p, id))
  {
    var minter := signers[p.index];
    var q := Serve(minter, target, p, id);
    forall a ensures Count(q.chain, a) >= Count(p.chain, a) {
    }
  }

  lemma ServeUsesRoom(signers: seq<Address>, target: Address, start: Chain, p: Progress, id: nat)
    requires UsesRoom(signers, start, p) && Ready(signers, p)
    ensures UsesRoom(signers, start, Serve(signers[p.index], target, p, id))
  {
    var minter := signers[p.index];
    var q := Serve(minter, target, p, id);
    if id !in p.chain.owners && CanMint(p.chain, minter, id) {
      CapacityUsed(signers, p.chain, q.chain, minter);
    } else {
      CapacitySame(signers, p.chain, q.chain);
    }
  }

  /** What handling an id does to the tokens that exist and to the number of mints. */
  lemma ServeTokens(minter: Address, target: Address, p: Progress, id: nat)
    ensures var q := Serve(minter, target, p, id);
            && (id in p.chain.owners ==>
                  q.status == p.status && q.mints == p.mints && q.chain.owners.Keys == p.chain.owners.Keys)
            && (id !in p.chain.owners && !CanMint(p.chain, minter, id) ==>
                  q.status.Reverted? && q.mints == p.mints)
            && (id !in p.chain.owners && CanMint(p.chain, minter, id) ==>
                  q.status == p.status && |q.mints| == |p.mints| + 1 &&
                  q.chain.owners.Keys == p.chain.owners.Keys + {id})
  {
  }

  lemma OldTokenMeetsIds(start: Chain, ids: seq<nat>, p: Progress, q: Progress, id: nat)
    requires MeetsIds(start, ids, p) && p.status.Running? && id in p.chain.owners
    requires q.status == p.status && q.mints == p.mints && q.chain.owners.Keys == p.chain.owners.Keys
    ensures MeetsIds(start, ids + [id], q)
  {
    UnmintedOneMore(ids, start, id);
    assert id in start.owners || id in Unminted(ids, start);
    assert Unminted(ids + [id], start) == Unminted(ids, start);
  }

  lemma NewTokenMeetsIds(start: Chain, ids: seq<nat>, p: Progress, q: Progress, id: nat)
    requires MeetsIds(start, ids, p) && p.status.Running? && id !in p.chain.owners
    requires |q.mints| == |p.mints| + 1 && q.chain.owners.Keys == p.chain.owners.Keys + {id}
    ensures id !in start.owners && MeetsIds(start, ids + [id], q)
  {
    UnmintedOneMore(ids, start, id);
    assert id !in p.chain.owners.Keys;
    assert id !in start.owners && id !in Unminted(ids, start);
  }

  lemma ServeMeetsIds(signers: seq<Address>, target: Address, start: Chain, ids: seq<nat>, p: Progress, id: nat)
    requires MeetsIds(start, ids, p) && Ready(signers, p)
    ensures MeetsIds(start, ids + [id], Serve(signers[p.index], target, p, id))
    ensures Serve(signers[p.index], target, p, id).status.Reverted? ==> Refused(start, id)
  {
    var q := Serve(signers[p.index], target, p, id);
    ServeTokens(signers[p.index], target, p, id);
    if id in p.chain.owners {
      OldTokenMeetsIds(start, ids, p, q, id);
    } else if CanMint(p.chain, signers[p.index], id) {
      NewTokenMeetsIds(start, ids, p, q, id);
    } else {
      assert id !in p.chain.owners.Keys;
      UnmintedOneMore(ids, start, id);
    }
  }

  lemma ServeDelivers(signers: seq<Address>, target: Address, start: Chain, p: Progress, id: nat)
    requires Delivered(target, start, p) && OthersUntouched(signers, start, p) && Ready(signers, p)
    ensures var q := Serve(signers[p.index], target, p, id);
            Delivered(target, start, q) && OthersUntouched(signers, start, q)
  {
  }

  lemma ServeKeeps(signers: seq<Address>, target: Address, start: Chain, ids: seq<nat>, p: Progress, id: nat)
    requires Accounted(signers, p) && Balanced(signers, target, start, ids, p) && Ready(signers, p)
    ensures var q := Serve(signers[p.index], target, p, id);
            Accounted(signers, q) && Balanced(signers, target, start, ids + [id], q)
    ensures Serve(signers[p.index], target, p, id).status.Reverted? ==> Refused(start, id)
  {
    ServeAccounts(signers, target, p, id);
    ServeUsesRoom(signers, target, start, p, id);
    ServeMeetsIds(signers, target, start, ids, p, id);
    ServeDelivers(signers, target, start, p, id);
  }

  lemma NextKeeps(signers: seq<Address>, target: Address, start: Chain, ids: seq<nat>, p: Progress, id: nat)
    requires Accounted(signers, p) && Balanced(signers, target, start, ids, p)
    ensures var q := Next(signers, target, p, id);
            Accounted(signers, q) && Balanced(signers, target, start, ids + [id], q)
    ensures var q := Next(signers, target, p, id);
            q.status.Reverted? && p.status.Running? ==> Refused(start, id)
  {
    UnmintedOneMore(ids, start, id);
    if p.status.Running? {
      ChooseKeeps(signers, target, start, ids, p);
      var q := Choose(signers, p);
      if q.status.Running? {
        ServeKeeps(signers, target, start, ids, q, id);
      }
    }
  }

  lemma {:induction false} AllocationKeeps(signers: seq<Address>, target: Address, start: Chain, ids: seq<nat>)
    ensures Accounted(signers, Allocate(signers, target, start, ids))
    ensures Balanced(signers, target, start, ids, Allocate(signers, target, start, ids))
    ensures Allocate(signers, target, start, ids).status.Reverted? ==>
              exists id :: id in ids && Refused(start, id)
  {
    if ids == [] {
      assert Unminted(ids, start) == {};
    } else {
      var before, id := ids[..|ids| - 1], ids[|ids| - 1];
      AllocationKeeps(signers, target, start, before);
      NextKeeps(signers, target, start, before, Allocate(signers, target, start, before), id);
      assert before + [id] == ids;
      if Allocate(signers, target, start, before).status.Reverted? {
        var bad :| bad in before && Refused(start, bad);
        assert bad in ids;
      }
    }
  }

  /** What handling one more id does to the tokens, if the run goes on: the token is with the target if it is
      new or was with the signer serving it, and stays where it is otherwise; no other token moves, and no
      count changes but the minter's, by one for a new token. */
  ghost predicate HandsOver(signers: seq<Address>, target: Address, p: Progress, q: Progress, id: nat)
    requires q.index < |signers|
  {
    var minter := signers[q.index];
    && q.chain.owners.Keys == p.chain.owners.Keys + {id}
    && q.chain.owners[id] == (if id in p.chain.owners && p.chain.owners[id] != minter then p.chain.owners[id] else target)
    && (forall other :: other in p.chain.owners && other != id ==> q.chain.owners[other] == p.chain.owners[other])
    && (forall a :: Count(q.chain, a) == Count(p.chain, a) + if a == minter && id !in p.chain.owners then 1 else 0)
  }

  lemma NextHandsOver(signers: seq<Address>, target: Address, p: Progress, id: nat)
    requires InRow(signers, p) && Next(signers, target, p, id).status.Running?
    ensures Next(signers, target, p, id).index < |signers|
    ensures HandsOver(signers, target, p, Next(signers, target, p, id), id)
  {
  }

  /** So it is at every id of a run that goes on behind it. */
  lemma {:induction false} RunHandsOver(signers: seq<Address>, target: Address, start: Chain, ids: seq<nat>, k: nat)
    requires k < |ids| && Allocate(signers, target, start, ids[..k + 1]).status.Running?
    ensures Allocate(signers, target, start, ids[..k + 1]).index < |signers|
    ensures HandsOver(signers, target, Allocate(signers, target, start, ids[..k]),
                      Allocate(signers, target, start, ids[..k + 1]), ids[k])
  {
    assert ids[..k + 1][..k] == ids[..k];
    NextHandsOver(signers, target, Allocate(signers, target, start, ids[..k]), ids[k]);
  }

  /** An id that stops the run changes no token and no count. */
  lemma StoppingChangesNothing(signers: seq<Address>, target: Address, p: Progress, id: nat)
    requires InRow(signers, p) && !Next(signers, target, p, id).status.Running?
    ensures Next(signers, target, p, id).chain == p.chain
  {
  }

  /** A token that a signer had minted but not handed over is handed over when its id comes up. */
  lemma LeftoverIsHandedOver(id: nat)
    ensures Allocate(["s"], "t", Chain(map["s" := 1], map[id := "s"]), [id]).chain ==
            Chain(map["s" := 1], map[id := "t"])
  {
    var start := Chain(map["s" := 1], map[id := "s"]);
    assert [id][..0] == [];
    assert Allocate(["s"], "t", start, []) == Begin(start);
    assert map[id := "s"][id := "t"] == map[id := "t"];
  }

  /** While every id is one the contract may mint or knows, the run never reverts and mints as many
      tokens as room and ids allow. */
  lemma {:induction false} MintsInRange(signers: seq<Address>, target: Address, start: Chain, ids: seq<nat>)
    requires forall id :: id in ids ==> !Refused(start, id)
    ensures var final := Allocate(signers, target, start, ids);
            var room, wanted := Capacity(signers, start), |Unminted(ids, start)|;
            !final.status.Reverted? && |final.mints| == (if room < wanted then room else wanted)
  {
    var final := Allocate(signers, target, start, ids);
    AllocationKeeps(signers, target, start, ids);
    if final.status.OutOfSigners? {
      CapacityExhausted(signers, final.chain);
    }
  }

  // ----- how it ends -----

  /** The position of the first id that is refused, or the end of the list. */
  function FirstRefused(start: Chain, ids: seq<nat>): (k: nat)
    ensures k <= |ids| && forall j :: 0 <= j < k ==> !Refused(start, ids[j])
    ensures k < |ids| ==> Refused(start, ids[k])
  {
    if ids == [] then 0
    else
      var before := ids[..|ids| - 1];
      var k := FirstRefused(start, before);
      if k < |before| || Refused(start, ids[|ids| - 1]) then k else |ids|
  }

  lemma {:induction false} RoomIsCapacity(signers: seq<Address>, chain: Chain, j: nat)
    requires j < |signers| && Count(chain, signers[j]) < CAP
    ensures Capacity(signers, chain) > 0
  {
    var before, last := signers[..|signers| - 1], signers[|signers| - 1];
    if j < |before| {
      RoomIsCapacity(before, chain, j);
    } else if last in before {
      var i :| 0 <= i < |before| && before[i] == last;
      RoomIsCapacity(before, chain, i);
    }
  }

  /** The next id finds a signer exactly if there is room left, and is handled exactly if it is not
      refused. */
  lemma {:induction false} NextExactly(signers: seq<Address>, target: Address, start: Chain, ids: seq<nat>,
                                       p: Progress, id: nat)
    requires Accounted(signers, p) && p.status.Running? && Balanced(signers, target, start, ids, p)
    requires forall k :: k in ids ==> !Refused(start, k)
    ensures var q := Next(signers, target, p, id);
            var room := Capacity(signers, start) - |Unminted(ids, start)|;
            && (q.status.OutOfSigners? <==> room == 0)
            && (q.status.Reverted? <==> room > 0 && Refused(start, id))
            && room >= 0 && (!q.status.Running? ==> q.mints == p.mints)
  {
    ChooseKeeps(signers, target, start, ids, p);
    var q := Choose(signers, p);
    if q.status.Running? {
      RoomIsCapacity(signers, q.chain, q.index);
      ServeTokens(signers[q.index], target, q, id);
      assert id in q.chain.owners <==> id in q.chain.owners.Keys;
    }
  }

  lemma UnmintedGrows(ids: seq<nat>, chain: Chain, k: nat)
    requires k <= |ids|
    ensures |Unminted(ids[..k], chain)| <= |Unminted(ids, chain)|
    decreases |ids|
  {
    if k < |ids| {
      var before := ids[..|ids| - 1];
      assert before[..k] == ids[..k];
      UnmintedGrows(before, chain, k);
      UnmintedOneMore(before, chain, ids[|ids| - 1]);
      assert before + [ids[|ids| - 1]] == ids;
    } else {
      assert ids[..k] == ids;
    }
  }

  /** The run is through with all its ids exactly if none was refused and there was room left when it
      came to the last one. */
  lemma {:induction false} RunsOnExactlyIf(signers: seq<Address>, target: Address, start: Chain, ids: seq<nat>)
    ensures Allocate(signers, target, start, ids).status.Running? <==>
            && FirstRefused(start, ids) == |ids|
            && (ids == [] || Capacity(signers, start) > |Unminted(ids[..|ids| - 1], start)|)
  {
    if ids != [] {
      var before, id := ids[..|ids| - 1], ids[|ids| - 1];
      var p := Allocate(signers, target, start, before);
      RunsOnExactlyIf(signers, target, start, before);
      AllocationKeeps(signers, target, start, before);
      if p.status.Running? {
        NextExactly(signers, target, start, before, p, id);
      } else if before != [] {
        UnmintedGrows(before, start, |before| - 1);
      }
    }
  }

  /** Up to the first id that the contract refuses, the run mints exactly as many tokens as the signers'
      room and the distinct unminted ids allow; nobody mints past the cap and every minted token ends up
      with the target. It reverts exactly if it has room left when it comes to that id, and gives up
      early exactly if it has none left when it comes to that id, or to the last one if there is none;
      then every signer is at the cap. */
  lemma {:induction false} MintsAsManyAsPossible(signers: seq<Address>, target: Address, start: Chain, ids: seq<nat>)
    ensures var final, k := Allocate(signers, target, start, ids), FirstRefused(start, ids);
            var room, wanted := Capacity(signers, start), |Unminted(ids[..k], start)|;
            && |final.mints| == (if room < wanted then room else wanted)
            && (final.status.Reverted? <==> k < |ids| && room > wanted)
            && (final.status.OutOfSigners? <==>
                  ids != [] && room <= |Unminted(ids[..if k < |ids| then k else |ids| - 1], start)|)
            && (final.status.OutOfSigners? ==>
                  forall j :: 0 <= j < |signers| ==> Count(final.chain, signers[j]) >= CAP)
            && (forall m :: m in final.mints ==> m.signer in signers && m.countBefore < CAP)
            && Delivered(target, start, final) && OthersUntouched(signers, start, final)
  {
    var k := FirstRefused(start, ids);
    AllocationKeeps(signers, target, start, ids);
    MintsInRange(signers, target, start, ids[..k]);
    if k == |ids| {
      assert ids[..k] == ids;
      RunsOnExactlyIf(signers, target, start, ids);
    } else {
      StopsAtRefused(signers, target, start, ids);
    }
  }

  lemma {:induction false} StopsAtRefused(signers: seq<Address>, target: Address, start: Chain, ids: seq<nat>)
    requires FirstRefused(start, ids) < |ids|
    ensures var final, k := Allocate(signers, target, start, ids), FirstRefused(start, ids);
            var p := Allocate(signers, target, start, ids[..k]);
            var room, wanted := Capacity(signers, start), |Unminted(ids[..k], start)|;
            && final.mints == p.mints && !final.status.Running?
            && (final.status.Reverted? <==> room > wanted)
  {
    var k := FirstRefused(start, ids);
    var before, upTo := ids[..k], ids[..k + 1];
    var p := Allocate(signers, target, start, before);
    assert upTo[..k] == before;
    AllocationKeeps(signers, target, start, before);
    MintsInRange(signers, target, start, before);
    if p.status.Running? {
      NextExactly(signers, target, start, before, p, ids[k]);
      StoppedStays(signers, target, start, ids, k + 1);
    } else {
      RunsOnExactlyIf(signers, target, start, before);
      FirstRefusedOfPrefix(start, ids);
      UnmintedGrows(before, start, k - 1);
      StoppedStays(signers, target, start, ids, k);
    }
  }

  lemma {:induction false} FirstRefusedOfPrefix(start: Chain, ids: seq<nat>)
    ensures FirstRefused(start, ids[..FirstRefused(start, ids)]) == FirstRefused(start, ids)
  {
  }

  /** An id from 10000 on is accepted and ends the run, though there is room for the id behind it. */
  lemma OutOfRangeIdEndsTheRun()
    ensures var final := Allocate(["s"], "t", Chain(map[], map[]), [1, MAX_TOKEN_ID, 2]);
            final.status.Reverted? && |final.mints| == 1
  {
    var start, ids := Chain(map[], map[]), [1, MAX_TOKEN_ID, 2];
    MintsAsManyAsPossible(["s"], "t", start, ids);
    assert ids[1] == MAX_TOKEN_ID && ids[..1] == [1];
    assert Unminted([1], start) == {1};
    assert Capacity(["s"], start) == CAP;
    assert FirstRefused(start, ids) == 1;
  }
}
