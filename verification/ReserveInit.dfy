/** Initialising the reserves of a market: one rate strategy contract for each strategy name, one
    initialisation record for each reserve with a token address, sent in batches. */
module ReserveInit {
  import opened Chunks

  const INIT_CHUNKS := 1

  datatype Strategy = Strategy(name: string, optimalUtilizationRate: string, baseVariableBorrowRate: string,
                               variableRateSlope1: string, variableRateSlope2: string)

  datatype Reserve = Reserve(symbol: string, strategy: Strategy, bTokenImpl: string, decimals: string)

  datatype Settings = Settings(addressesProvider: string, collector: string, debtTokenImpl: string,
                               bTokenNamePrefix: string, bTokenSymbolPrefix: string,
                               debtTokenNamePrefix: string, debtTokenSymbolPrefix: string)

  datatype InitParam = InitParam(
    bTokenImpl: string, debtTokenImpl: string, underlyingAssetDecimals: string, interestRateAddress: string,
    underlyingAsset: string, treasury: string, underlyingAssetName: string,
    bTokenName: string, bTokenSymbol: string, debtTokenName: string, debtTokenSymbol: string)

  datatype Deployment = Deployment(name: string, args: seq<string>, address: string)

  function StrategyArgs(settings: Settings, s: Strategy): seq<string> {
    [settings.addressesProvider, s.optimalUtilizationRate, s.baseVariableBorrowRate, s.variableRateSlope1,
     s.variableRateSlope2]
  }

  /** A token address that is missing or empty does not count. */
  predicate HasToken(tokens: map<string, string>, symbol: string) {
    symbol in tokens && tokens[symbol] != ""
  }

  function ParamFor(settings: Settings, lookup: string -> string, tokens: map<string, string>, r: Reserve,
                    rate: string): InitParam
    requires HasToken(tokens, r.symbol)
  {
    InitParam(lookup(r.bTokenImpl), lookup(settings.debtTokenImpl), r.decimals, rate, tokens[r.symbol],
              settings.collector, r.symbol,
              settings.bTokenNamePrefix + " " + r.symbol, settings.bTokenSymbolPrefix + r.symbol,
              settings.debtTokenNamePrefix + " " + r.symbol, settings.debtTokenSymbolPrefix + r.symbol)
  }

  // ----- what is to be done -----

  /** The reserves that have a token, in configuration order. */
  function Configured(reserves: seq<Reserve>, tokens: map<string, string>): seq<Reserve> {
    if reserves == [] then []
    else
      var last := reserves[|reserves| - 1];
      Configured(reserves[..|reserves| - 1], tokens) + if HasToken(tokens, last.symbol) then [last] else []
  }

  predicate Uses(reserves: seq<Reserve>, name: string) {
    exists i :: 0 <= i < |reserves| && reserves[i].strategy.name == name
  }

  /** The strategies to deploy: each name as it is first used. */
  function FirstUses(reserves: seq<Reserve>): seq<Strategy> {
    if reserves == [] then []
    else
      var before, last := reserves[..|reserves| - 1], reserves[|reserves| - 1];
      FirstUses(before) + if Uses(before, last.strategy.name) then [] else [last.strategy]
  }

  predicate DeploysAll(settings: Settings, strategies: seq<Strategy>, deployed: seq<Deployment>) {
    |deployed| == |strategies| &&
    forall i :: 0 <= i < |deployed| ==>
      && deployed[i].name == strategies[i].name && deployed[i].args == StrategyArgs(settings, strategies[i])
      && deployed[i].address != ""
  }

  predicate DeployedAt(deployed: seq<Deployment>, name: string, address: string) {
    exists i :: 0 <= i < |deployed| && deployed[i].name == name && deployed[i].address == address
  }

  /** One record for each reserve, carrying the address deployed for its own strategy name. */
  predicate Initialises(settings: Settings, lookup: string -> string, tokens: map<string, string>,
                        reserves: seq<Reserve>, deployed: seq<Deployment>, params: seq<InitParam>) {
    |params| == |reserves| &&
    forall i :: 0 <= i < |params| ==>
      && HasToken(tokens, reserves[i].symbol)
      && params[i] == ParamFor(settings, lookup, tokens, reserves[i], params[i].interestRateAddress)
      && DeployedAt(deployed, reserves[i].strategy.name, params[i].interestRateAddress)
  }

  // ----- the network -----

  class Network {
    var deployments: seq<Deployment>
    var batches: seq<seq<InitParam>>

    /** A deployment that succeeds has an address. */
    method DeployRateStrategy(name: string, args: seq<string>) returns (address: string)
      modifies this`deployments
      ensures address != ""
      ensures deployments == old(deployments) + [Deployment(name, args, address)]
    {
      address := *;
      if address == "" {
        address := "0x";
      }
      deployments := deployments + [Deployment(name, args, address)];
    }

    method BatchInitReserve(batch: seq<InitParam>)
      modifies this`batches
      ensures batches == old(batches) + [batch]
    {
      batches := batches + [batch];
    }
  }

  lemma {:induction false} FirstUsesNames(reserves: seq<Reserve>, name: string)
    ensures Uses(reserves, name) <==> exists i :: 0 <= i < |FirstUses(reserves)| && FirstUses(reserves)[i].name == name
  {
    if reserves != [] {
      var before, last := reserves[..|reserves| - 1], reserves[|reserves| - 1];
      FirstUsesNames(before, name);
      UsesOneMore(before, last, name);
      assert before + [last] == reserves;
      var firsts, all := FirstUses(before), FirstUses(reserves);
      if i :| 0 <= i < |firsts| && firsts[i].name == name {
        assert all[i].name == name;
      }
      if last.strategy.name == name && !Uses(before, name) {
        assert all[|firsts|].name == name;
      }
    }
  }

  lemma UsesOneMore(before: seq<Reserve>, last: Reserve, name: string)
    ensures Uses(before + [last], name) <==> Uses(before, name) || last.strategy.name == name
  {
    var all := before + [last];
    if i :| 0 <= i < |before| && before[i].strategy.name == name {
      assert all[i].strategy.name == name;
    }
    assert all[|before|] == last;
  }

  /** Each strategy name in use is deployed exactly once. */
  lemma {:induction false} FirstUsesAreDistinct(reserves: seq<Reserve>)
    ensures forall i, j :: 0 <= i < j < |FirstUses(reserves)| ==> FirstUses(reserves)[i].name != FirstUses(reserves)[j].name
  {
    if reserves != [] {
      var before, last := reserves[..|reserves| - 1], reserves[|reserves| - 1];
      var firsts, all := FirstUses(before), FirstUses(reserves);
      FirstUsesAreDistinct(before);
      FirstUsesNames(before, last.strategy.name);
      forall i, j | 0 <= i < j < |all| ensures all[i].name != all[j].name {
        assert all[i] == firsts[i];
        if j < |firsts| {
          assert all[j] == firsts[j];
        } else {
          assert all[j] == last.strategy;
        }
      }
    }
  }

  lemma {:induction false} FirstUsesAreUsed(reserves: seq<Reserve>, s: Strategy)
    requires s in FirstUses(reserves)
    ensures exists i :: 0 <= i < |reserves| && reserves[i].strategy == s
  {
    var before, last := reserves[..|reserves| - 1], reserves[|reserves| - 1];
    if s in FirstUses(before) {
      FirstUsesAreUsed(before, s);
      var i :| 0 <= i < |before| && before[i].strategy == s;
      assert reserves[i] == before[i];
    } else {
      assert reserves[|reserves| - 1].strategy == s;
    }
  }

  predicate NamesDetermineRates(reserves: seq<Reserve>) {
    forall i, j :: 0 <= i < |reserves| && 0 <= j < |reserves| && reserves[i].strategy.name == reserves[j].strategy.name ==>
      reserves[i].strategy == reserves[j].strategy
  }

  lemma {:induction false} NamedStrategyIsOwn(reserves: seq<Reserve>, i: nat)
    requires i < |reserves| && NamesDetermineRates(reserves)
    ensures reserves[i].strategy in FirstUses(reserves)
  {
    FirstUsesNames(reserves, reserves[i].strategy.name);
    var k :| 0 <= k < |FirstUses(reserves)| && FirstUses(reserves)[k].name == reserves[i].strategy.name;
    FirstUsesAreUsed(reserves, FirstUses(reserves)[k]);
  }

  /** The address is that of a deployment under the strategy's name, made with its own rates. */
  predicate OwnRates(settings: Settings, deployed: seq<Deployment>, s: Strategy, address: string) {
    exists i :: 0 <= i < |deployed| &&
      deployed[i].name == s.name && deployed[i].address == address && deployed[i].args == StrategyArgs(settings, s)
  }

  predicate AllOwnRates(settings: Settings, deployed: seq<Deployment>, reserves: seq<Reserve>, params: seq<InitParam>) {
    |params| == |reserves| && forall i :: 0 <= i < |reserves| ==>
      OwnRates(settings, deployed, reserves[i].strategy, params[i].interestRateAddress)
  }

  /** Every record carries the address of a strategy with its own reserve's rates exactly if no two
      reserves share a strategy name and differ in its rates. */
  lemma {:induction false} OwnRatesExactlyIf(settings: Settings, lookup: string -> string, tokens: map<string, string>,
                          reserves: seq<Reserve>, deployed: seq<Deployment>, params: seq<InitParam>)
    requires DeploysAll(settings, FirstUses(reserves), deployed)
    requires Initialises(settings, lookup, tokens, reserves, deployed, params)
    ensures AllOwnRates(settings, deployed, reserves, params) <==> NamesDetermineRates(reserves)
  {
    FirstUsesAreDistinct(reserves);
    forall i | 0 <= i < |reserves|
      ensures OwnRates(settings, deployed, reserves[i].strategy, params[i].interestRateAddress) <==>
              reserves[i].strategy in FirstUses(reserves)
    {
      OwnRatesIfFirstUse(settings, FirstUses(reserves), deployed, reserves[i].strategy, params[i].interestRateAddress);
    }
    if NamesDetermineRates(reserves) {
      forall i | 0 <= i < |reserves| ensures reserves[i].strategy in FirstUses(reserves) {
        NamedStrategyIsOwn(reserves, i);
      }
    }
  }

  lemma OwnRatesIfFirstUse(settings: Settings, strategies: seq<Strategy>, deployed: seq<Deployment>, s: Strategy,
                           address: string)
    requires DeploysAll(settings, strategies, deployed) && DeployedAt(deployed, s.name, address)
    requires forall i, j :: 0 <= i < j < |strategies| ==> strategies[i].name != strategies[j].name
    ensures OwnRates(settings, deployed, s, address) <==> s in strategies
  {
    var k :| 0 <= k < |deployed| && deployed[k].name == s.name && deployed[k].address == address;
    assert deployed[k].args == StrategyArgs(settings, strategies[k]);
    if OwnRates(settings, deployed, s, address) {
      var i :| 0 <= i < |deployed| && deployed[i].name == s.name && deployed[i].address == address &&
        deployed[i].args == StrategyArgs(settings, s);
      SameArgsSameRates(settings, strategies[i], s);
    }
  }

  lemma SameArgsSameRates(settings: Settings, s: Strategy, t: Strategy)
    requires s.name == t.name && StrategyArgs(settings, s) == StrategyArgs(settings, t)
    ensures s == t
  {
    var a, b := StrategyArgs(settings, s), StrategyArgs(settings, t);
    assert a[1] == b[1] && a[2] == b[2] && a[3] == b[3] && a[4] == b[4];
  }

  /** Two reserves under one strategy name with different rates: the second gets the rates of the first. */
  lemma SharedNameTakesFirstRates(settings: Settings, lookup: string -> string, tokens: map<string, string>,
                                  first: Reserve, second: Reserve, deployed: seq<Deployment>, params: seq<InitParam>)
    requires first.strategy.name == second.strategy.name && first.strategy != second.strategy
    requires DeploysAll(settings, FirstUses([first, second]), deployed)
    requires Initialises(settings, lookup, tokens, [first, second], deployed, params)
    ensures OwnRates(settings, deployed, first.strategy, params[1].interestRateAddress)
    ensures !OwnRates(settings, deployed, second.strategy, params[1].interestRateAddress)
  {
    var reserves := [first, second];
    assert reserves[..1] == [first] && [first][..0] == [];
    assert Uses([first], second.strategy.name) by {
      assert [first][0].strategy.name == second.strategy.name;
    }
    assert FirstUses([first]) == [first.strategy];
    assert FirstUses(reserves) == [first.strategy];
    OwnRatesIfFirstUse(settings, FirstUses(reserves), deployed, reserves[1].strategy, params[1].interestRateAddress);
    OwnRatesIfFirstUse(settings, FirstUses(reserves), deployed, first.strategy, params[1].interestRateAddress);
  }

  /** The addresses table agrees with the deployments made so far. */
  ghost predicate TableFits(table: map<string, string>, reserves: seq<Reserve>, deployed: seq<Deployment>) {
    && (forall name :: name in table <==> Uses(reserves, name))
    && (forall name :: name in table ==> table[name] != "" && DeployedAt(deployed, name, table[name]))
  }

  lemma DeployedLater(deployed: seq<Deployment>, more: seq<Deployment>, name: string, address: string)
    requires DeployedAt(deployed, name, address) && deployed <= more
    ensures DeployedAt(more, name, address)
  {
    var i :| 0 <= i < |deployed| && deployed[i].name == name && deployed[i].address == address;
    assert more[i] == deployed[i];
  }

  lemma {:induction false} KnownStrategy(settings: Settings, table: map<string, string>, done: seq<Reserve>,
                                         r: Reserve, deployed: seq<Deployment>)
    requires TableFits(table, done, deployed) && DeploysAll(settings, FirstUses(done), deployed)
    requires r.strategy.name in table
    ensures TableFits(table, done + [r], deployed) && DeploysAll(settings, FirstUses(done + [r]), deployed)
  {
    assert (done + [r])[..|done|] == done;
    forall n ensures Uses(done + [r], n) <==> Uses(done, n) || n == r.strategy.name {
      UsesOneMore(done, r, n);
    }
  }

  lemma {:induction false} NewStrategy(settings: Settings, table: map<string, string>, done: seq<Reserve>, r: Reserve,
                    deployed: seq<Deployment>, address: string)
    requires TableFits(table, done, deployed) && DeploysAll(settings, FirstUses(done), deployed)
    requires r.strategy.name !in table && address != ""
    ensures var more := deployed + [Deployment(r.strategy.name, StrategyArgs(settings, r.strategy), address)];
            && TableFits(table[r.strategy.name := address], done + [r], more)
            && DeploysAll(settings, FirstUses(done + [r]), more)
  {
    var name := r.strategy.name;
    var more := deployed + [Deployment(name, StrategyArgs(settings, r.strategy), address)];
    var table' := table[name := address];
    assert (done + [r])[..|done|] == done;
    forall n ensures Uses(done + [r], n) <==> Uses(done, n) || n == name {
      UsesOneMore(done, r, n);
    }
    forall n | n in table' ensures table'[n] != "" && DeployedAt(more, n, table'[n]) {
      if n == name {
        assert more[|deployed|].name == name && more[|deployed|].address == address;
      } else {
        DeployedLater(deployed, more, n, table[n]);
      }
    }
  }

  lemma OneMoreParam(settings: Settings, lookup: string -> string, tokens: map<string, string>, done: seq<Reserve>,
                     r: Reserve,
                     deployed: seq<Deployment>, more: seq<Deployment>, params: seq<InitParam>, rate: string)
    requires Initialises(settings, lookup, tokens, done, deployed, params) && HasToken(tokens, r.symbol)
    requires deployed <= more && DeployedAt(more, r.strategy.name, rate)
    ensures Initialises(settings, lookup, tokens, done + [r], more, params + [ParamFor(settings, lookup, tokens, r, rate)])
  {
    forall i | 0 <= i < |done| ensures DeployedAt(more, done[i].strategy.name, params[i].interestRateAddress) {
      DeployedLater(deployed, more, done[i].strategy.name, params[i].interestRateAddress);
    }
  }

  /** After the reserves done: the table, the deployments and the records all fit together. */
  ghost predicate Prepared(settings: Settings, lookup: string -> string, tokens: map<string, string>,
                           done: seq<Reserve>,
                           table: map<string, string>, deployed: seq<Deployment>, params: seq<InitParam>) {
    && TableFits(table, done, deployed)
    && DeploysAll(settings, FirstUses(done), deployed)
    && Initialises(settings, lookup, tokens, done, deployed, params)
  }

  lemma {:induction false} KnownReserve(settings: Settings, lookup: string -> string, tokens: map<string, string>,
                                        done: seq<Reserve>, table: map<string, string>, deployed: seq<Deployment>,
                                        params: seq<InitParam>, r: Reserve)
    requires Prepared(settings, lookup, tokens, done, table, deployed, params) && HasToken(tokens, r.symbol)
    requires r.strategy.name in table
    ensures Prepared(settings, lookup, tokens, done + [r], table, deployed,
                     params + [ParamFor(settings, lookup, tokens, r, table[r.strategy.name])])
  {
    KnownStrategy(settings, table, done, r, deployed);
    OneMoreParam(settings, lookup, tokens, done, r, deployed, deployed, params, table[r.strategy.name]);
  }

  lemma {:induction false} NewReserve(settings: Settings, lookup: string -> string, tokens: map<string, string>,
                                      done: seq<Reserve>, table: map<string, string>, deployed: seq<Deployment>,
                                      params: seq<InitParam>, r: Reserve, address: string)
    requires Prepared(settings, lookup, tokens, done, table, deployed, params) && HasToken(tokens, r.symbol)
    requires r.strategy.name !in table && address != ""
    ensures Prepared(settings, lookup, tokens, done + [r], table[r.strategy.name := address],
                     deployed + [Deployment(r.strategy.name, StrategyArgs(settings, r.strategy), address)],
                     params + [ParamFor(settings, lookup, tokens, r, address)])
  {
    var more := deployed + [Deployment(r.strategy.name, StrategyArgs(settings, r.strategy), address)];
    NewStrategy(settings, table, done, r, deployed, address);
    assert more[|deployed|].name == r.strategy.name && more[|deployed|].address == address;
    OneMoreParam(settings, lookup, tokens, done, r, deployed, more, params, address);
  }

  /** Deploys the strategies and prepares the records, reserve by reserve. */
  method PrepareReserves(network: Network, reserves: seq<Reserve>, tokens: map<string, string>, settings: Settings,
                         lookup: string -> string)
    returns (initInputParams: seq<InitParam>, ghost deployed: seq<Deployment>)
    modifies network`deployments
    ensures network.deployments == old(network.deployments) + deployed
    ensures DeploysAll(settings, FirstUses(Configured(reserves, tokens)), deployed)
    ensures Initialises(settings, lookup, tokens, Configured(reserves, tokens), deployed, initInputParams)
  {
    deployed := [];
    initInputParams := [];
    var strategyAddresses: map<string, string> := map[];
    ghost var done: seq<Reserve> := [];
    for i := 0 to |reserves|
      invariant done == Configured(reserves[..i], tokens)
      invariant network.deployments == old(network.deployments) + deployed
      invariant Prepared(settings, lookup, tokens, done, strategyAddresses, deployed, initInputParams)
    {
      var r := reserves[i];
      assert reserves[..i + 1][..i] == reserves[..i];
      if HasToken(tokens, r.symbol) {
        var name := r.strategy.name;
        if name !in strategyAddresses || strategyAddresses[name] == "" {
          var address := network.DeployRateStrategy(name, StrategyArgs(settings, r.strategy));
          NewReserve(settings, lookup, tokens, done, strategyAddresses, deployed, initInputParams, r, address);
          strategyAddresses := strategyAddresses[name := address];
          ghost var d := Deployment(name, StrategyArgs(settings, r.strategy), address);
          assert old(network.deployments) + (deployed + [d]) == old(network.deployments) + deployed + [d];
          deployed := deployed + [d];
        } else {
          KnownReserve(settings, lookup, tokens, done, strategyAddresses, deployed, initInputParams, r);
        }
        initInputParams := initInputParams + [ParamFor(settings, lookup, tokens, r, strategyAddresses[name])];
        done := done + [r];
      }
    }
    assert reserves[..|reserves|] == reserves;
  }

  /** A record spells out its reserve: the token's address, the reserve's own decimals and implementation,
      and names made of prefix and symbol. */
  predicate Spells(settings: Settings, lookup: string -> string, tokens: map<string, string>, r: Reserve, p: InitParam) {
    && r.symbol in tokens && tokens[r.symbol] != "" && p.underlyingAsset == tokens[r.symbol]
    && p.underlyingAssetName == r.symbol && p.underlyingAssetDecimals == r.decimals
    && p.bTokenImpl == lookup(r.bTokenImpl) && p.debtTokenImpl == lookup(settings.debtTokenImpl)
    && p.treasury == settings.collector
    && p.bTokenName == settings.bTokenNamePrefix + " " + r.symbol
    && p.bTokenSymbol == settings.bTokenSymbolPrefix + r.symbol
    && p.debtTokenName == settings.debtTokenNamePrefix + " " + r.symbol
    && p.debtTokenSymbol == settings.debtTokenSymbolPrefix + r.symbol
  }

  lemma {:induction false} RecordsSpellReserves(settings: Settings, lookup: string -> string, tokens: map<string, string>,
                             reserves: seq<Reserve>, deployed: seq<Deployment>, params: seq<InitParam>)
    requires Initialises(settings, lookup, tokens, reserves, deployed, params)
    ensures |params| == |reserves|
    ensures forall i :: 0 <= i < |reserves| ==> Spells(settings, lookup, tokens, reserves[i], params[i])
  {
  }

  /** A deployment is made with the addresses provider and the four rates of the reserve that is first to use
      its name, in this order. */
  lemma {:induction false} DeploymentsSpellRates(settings: Settings, reserves: seq<Reserve>,
                                                 deployed: seq<Deployment>, i: nat)
    requires DeploysAll(settings, FirstUses(reserves), deployed) && i < |deployed|
    ensures exists j :: 0 <= j < |reserves| &&
              var s := reserves[j].strategy;
              && deployed[i].name == s.name && |deployed[i].args| == 5
              && deployed[i].args[0] == settings.addressesProvider && deployed[i].args[1] == s.optimalUtilizationRate
              && deployed[i].args[2] == s.baseVariableBorrowRate && deployed[i].args[3] == s.variableRateSlope1
              && deployed[i].args[4] == s.variableRateSlope2
              && forall k :: 0 <= k < j ==> reserves[k].strategy.name != s.name
  {
    FirstUseIsFirst(reserves, i);
  }

  lemma {:induction false} FirstUseIsFirst(reserves: seq<Reserve>, i: nat)
    requires i < |FirstUses(reserves)|
    ensures exists j :: 0 <= j < |reserves| && reserves[j].strategy == FirstUses(reserves)[i] &&
              forall k :: 0 <= k < j ==> reserves[k].strategy.name != reserves[j].strategy.name
  {
    var before, last := reserves[..|reserves| - 1], reserves[|reserves| - 1];
    var firsts := FirstUses(before);
    if i < |firsts| {
      FirstUseIsFirst(before, i);
      var j :| 0 <= j < |before| && before[j].strategy == firsts[i] &&
        forall k :: 0 <= k < j ==> before[k].strategy.name != before[j].strategy.name;
      assert forall k :: 0 <= k <= j ==> reserves[k] == before[k];
    } else {
      assert !Uses(before, last.strategy.name);
      assert forall k :: 0 <= k < |before| ==> reserves[k] == before[k];
    }
  }

  /** Which reserves are initialised: those whose symbol has a token address that is not empty, in order. */
  lemma {:induction false} ConfiguredInOrder(a: seq<Reserve>, r: Reserve, b: seq<Reserve>, tokens: map<string, string>)
    ensures Configured(a + [r] + b, tokens) ==
            Configured(a, tokens) +
            (if r.symbol in tokens && tokens[r.symbol] != "" then [r] else []) + Configured(b, tokens)
  {
    if b == [] {
      assert a + [r] + b == a + [r] && (a + [r])[..|a|] == a;
      assert Configured(b, tokens) == [];
    } else {
      var before, last := b[..|b| - 1], b[|b| - 1];
      assert (a + [r] + b)[..|a + [r] + b| - 1] == a + [r] + before;
      ConfiguredInOrder(a, r, before, tokens);
    }
  }

  /** All batches together are the records of the configured reserves, in configuration order; each
      strategy name in use is deployed once, with the rates of the reserve that uses it first. */
  method InitReserves(network: Network, reserves: seq<Reserve>, tokens: map<string, string>, settings: Settings,
                      lookup: string -> string)
    returns (ghost deployed: seq<Deployment>, ghost batches: seq<seq<InitParam>>)
    modifies network
    ensures network.deployments == old(network.deployments) + deployed
    ensures network.batches == old(network.batches) + batches
    ensures DeploysAll(settings, FirstUses(Configured(reserves, tokens)), deployed)
    ensures Initialises(settings, lookup, tokens, Configured(reserves, tokens), deployed, Flatten(batches))
    ensures forall b :: b in batches ==> |b| == INIT_CHUNKS
    ensures AllOwnRates(settings, deployed, Configured(reserves, tokens), Flatten(batches)) <==>
            NamesDetermineRates(Configured(reserves, tokens))
  {
    hide DeploysAll, Initialises, AllOwnRates, NamesDetermineRates, Configured, FirstUses;
    var initInputParams;
    initInputParams, deployed := PrepareReserves(network, reserves, tokens, settings, lookup);
    label prepared:
    OwnRatesExactlyIf(settings, lookup, tokens, Configured(reserves, tokens), deployed, initInputParams);
    var chunkedInitInputParams := Chunk(initInputParams, INIT_CHUNKS);
    ChunksFlattenBack(initInputParams, INIT_CHUNKS);
    ChunkSizes(initInputParams, INIT_CHUNKS);
    for chunkIndex := 0 to |chunkedInitInputParams|
      invariant network.deployments == old@prepared(network.deployments)
      invariant network.batches == old@prepared(network.batches) + chunkedInitInputParams[..chunkIndex]
    {
      network.BatchInitReserve(chunkedInitInputParams[chunkIndex]);
    }
    batches := chunkedInitInputParams;
  }
}
