/** Call data: a four-byte selector and one aligned word for each static argument. */
module CallData {
  import opened Wrappers
  import opened AbiWords

  datatype Arg = AddressArg(address: string) | UintArg(value: int)

  function Encode(arg: Arg): string {
    match arg
    case AddressArg(a) => PadAddr(a)
    case UintArg(n) => PadUint(n)
  }

  predicate ValidArg(arg: Arg) {
    match arg
    case AddressArg(a) => IsHexAddress(a)
    case UintArg(n) => 0 <= n < UINT_BOUND
  }

  /** What a reader finds at the i-th word, given the type it expects there. */
  predicate ReadsAs(hex: string, i: nat, arg: Arg) {
    match arg
    case AddressArg(a) => AddrWord(hex, i) == Lower(a)
    case UintArg(n) => n >= 0 && Word(hex, i) == Some(n)
  }

  function Join(words: seq<string>): string {
    if words == [] then "" else Join(words[..|words| - 1]) + words[|words| - 1]
  }

  predicate Aligned(words: seq<string>) {
    forall i :: 0 <= i < |words| ==> |words[i]| == WORD
  }

  lemma {:induction false} JoinLength(words: seq<string>)
    requires Aligned(words)
    ensures |Join(words)| == |words| * WORD
  {
    if words != [] {
      JoinLength(words[..|words| - 1]);
    }
  }

  /** Behind words that are in place, the next place holds the first digits of the next word, however long
      that and later words are. */
  lemma {:induction false} JoinUpTo(words: seq<string>, i: nat)
    requires i < |words| && |words[i]| >= WORD && Aligned(words[..i])
    ensures |Join(words)| >= (i + 1) * WORD
    ensures Join(words)[i * WORD..(i + 1) * WORD] == words[i][..WORD]
  {
    var before := words[..|words| - 1];
    if i < |before| {
      assert before[..i] == words[..i];
      JoinUpTo(before, i);
      assert Join(words)[i * WORD..(i + 1) * WORD] == Join(before)[i * WORD..(i + 1) * WORD];
    } else {
      assert before == words[..i];
      JoinLength(before);
    }
  }

  lemma SliceAfterPrefix(body: string, from: nat, to: nat)
    requires from <= to <= |body|
    ensures Slice("0x" + body, 2 + from, 2 + to) == body[from..to]
  {
  }

  lemma {:induction false} JoinSlices(words: seq<string>, i: nat)
    requires i < |words| && |words[i]| >= WORD && Aligned(words[..i])
    ensures Slice("0x" + Join(words), 2 + i * WORD, 2 + (i + 1) * WORD) == words[i][..WORD]
    ensures Slice("0x" + Join(words), 2 + i * WORD + 24, 2 + (i + 1) * WORD) == words[i][24..WORD]
  {
    JoinUpTo(words, i);
    var body, from, to := Join(words), i * WORD, (i + 1) * WORD;
    SliceAfterPrefix(body, from, to);
    SliceAfterPrefix(body, from + 24, to);
    assert body[from + 24..to] == body[from..to][24..];
  }

  /** Reading one of any number of encoded arguments gives that argument back: a number as it is, an
      address in lower case. Only the words in front of it have to be in place. */
  lemma {:induction false} WordsReadBack(words: seq<string>, i: nat, arg: Arg)
    requires i < |words| && Aligned(words[..i]) && ValidArg(arg) && words[i] == Encode(arg)
    ensures ReadsAs("0x" + Join(words), i, arg)
  {
    EncodedWord(arg);
    JoinSlices(words, i);
    assert words[i][..WORD] == words[i] && words[i][24..WORD] == words[i][24..];
    match arg
    case AddressArg(a) => PadAddrWord(a);
    case UintArg(n) => PadUintWord(n);
  }

  /** The data is the selector, then one word for each argument, and each word reads back. */
  ghost predicate Calls(data: string, selector: string, args: seq<Arg>) {
    && |selector| == 10 && |data| == 10 + |args| * WORD && data[..10] == selector
    && forall i :: 0 <= i < |args| ==> ReadsAs("0x" + data[10..], i, args[i])
  }

  ghost predicate Encodes(words: seq<string>, args: seq<Arg>) {
    |words| == |args| && forall i :: 0 <= i < |args| ==> ValidArg(args[i]) && words[i] == Encode(args[i])
  }

  lemma EncodedWord(arg: Arg)
    requires ValidArg(arg)
    ensures |Encode(arg)| == WORD
  {
    match arg
    case AddressArg(a) => PadAddrWord(a);
    case UintArg(n) => PadUintWord(n);
  }

  function EncodeAll(args: seq<Arg>): seq<string> {
    seq(|args|, i requires 0 <= i < |args| => Encode(args[i]))
  }

  lemma {:induction false} CallsIfJoined(data: string, selector: string, words: seq<string>, args: seq<Arg>)
    requires |selector| == 10 && data == selector + Join(words) && Encodes(words, args)
    ensures Calls(data, selector, args)
  {
    forall i | 0 <= i < |words| ensures |words[i]| == WORD {
      EncodedWord(args[i]);
    }
    JoinLength(words);
    assert data[10..] == Join(words);
    forall i | 0 <= i < |args| ensures ReadsAs("0x" + data[10..], i, args[i]) {
      WordsReadBack(words, i, args[i]);
    }
  }

  // ----- the calls the client makes -----

  datatype Request =
    | OwnerOf(tokenId: int)
    | GetApproved(tokenId: int)
    | Approve(spender: string, value: int)
    | Allowance(owner: string, spender: string)
    | CollateralData(nft: string, asset: string)
    | DebtData(nft: string, tokenId: int)
    | Deposit(asset: string, units: int, onBehalfOf: string)
    | Borrow(asset: string, units: int, nft: string, tokenId: int, onBehalfOf: string)
    | Repay(nft: string, tokenId: int, units: int)

  function Selector(r: Request): string {
    match r
    case OwnerOf(_) => "0x6352211e"
    case GetApproved(_) => "0x081812fc"
    case Approve(_, _) => "0x095ea7b3"
    case Allowance(_, _) => "0xdd62ed3e"
    case CollateralData(_, _) => "0xcc8ccdf2"
    case DebtData(_, _) => "0xec765d3d"
    case Deposit(_, _, _) => "0xe8eda9df"
    case Borrow(_, _, _, _, _) => "0xb6529aee"
    case Repay(_, _, _) => "0x8cd2e0c7"
  }

  /** The data string the client concatenates for a request. */
  function Data(r: Request): string {
    match r
    case OwnerOf(id) => Selector(r) + PadUint(id)
    case GetApproved(id) => Selector(r) + PadUint(id)
    case Approve(spender, n) => Selector(r) + PadAddr(spender) + PadUint(n)
    case Allowance(owner, spender) => Selector(r) + PadAddr(owner) + PadAddr(spender)
    case CollateralData(nft, asset) => Selector(r) + PadAddr(nft) + PadAddr(asset)
    case DebtData(nft, id) => Selector(r) + PadAddr(nft) + PadUint(id)
    case Deposit(asset, units, account) =>
      Selector(r) + PadAddr(asset) + PadUint(units) + PadAddr(account) + PadUint(0)
    case Borrow(asset, units, nft, id, account) =>
      Selector(r) + PadAddr(asset) + PadUint(units) + PadAddr(nft) + PadUint(id) + PadAddr(account) + PadUint(0)
    case Repay(nft, id, units) => Selector(r) + PadAddr(nft) + PadUint(id) + PadUint(units)
  }

  /** The parameters of the contract function behind a request, in its declared order; deposit and
      borrow end in a referral code, which is 0. */
  function Params(r: Request): seq<Arg> {
    match r
    case OwnerOf(id) => [UintArg(id)]
    case GetApproved(id) => [UintArg(id)]
    case Approve(spender, n) => [AddressArg(spender), UintArg(n)]
    case Allowance(owner, spender) => [AddressArg(owner), AddressArg(spender)]
    case CollateralData(nft, asset) => [AddressArg(nft), AddressArg(asset)]
    case DebtData(nft, id) => [AddressArg(nft), UintArg(id)]
    case Deposit(asset, units, account) => [AddressArg(asset), UintArg(units), AddressArg(account), UintArg(0)]
    case Borrow(asset, units, nft, id, account) =>
      [AddressArg(asset), UintArg(units), AddressArg(nft), UintArg(id), AddressArg(account), UintArg(0)]
    case Repay(nft, id, units) => [AddressArg(nft), UintArg(id), UintArg(units)]
  }

  lemma {:induction false} JoinOneMore(words: seq<string>, w: string)
    ensures Join(words + [w]) == Join(words) + w
  {
    assert (words + [w])[..|words|] == words;
  }

  lemma JoinThree(s: string, a: string, b: string, c: string)
    ensures s + Join([a, b, c]) == s + a + b + c
  {
    JoinOneMore([], a);
    JoinOneMore([a], b);
    JoinOneMore([a, b], c);
    assert [] + [a] == [a] && [a] + [b] == [a, b] && [a, b] + [c] == [a, b, c];
    assert Join([a, b, c]) == a + b + c;
  }

  lemma JoinFour(s: string, a: string, b: string, c: string, d: string)
    ensures s + Join([a, b, c, d]) == s + a + b + c + d
  {
    JoinThree(s, a, b, c);
    JoinOneMore([a, b, c], d);
    assert [a, b, c] + [d] == [a, b, c, d];
    assert s + (Join([a, b, c]) + d) == s + Join([a, b, c]) + d;
  }

  lemma JoinSix(s: string, a: string, b: string, c: string, d: string, e: string, f: string)
    ensures s + Join([a, b, c, d, e, f]) == s + a + b + c + d + e + f
  {
    JoinFour(s, a, b, c, d);
    JoinOneMore([a, b, c, d], e);
    JoinOneMore([a, b, c, d, e], f);
    assert [a, b, c, d] + [e] == [a, b, c, d, e] && [a, b, c, d, e] + [f] == [a, b, c, d, e, f];
    assert s + (Join([a, b, c, d]) + e + f) == s + Join([a, b, c, d]) + e + f;
  }

  lemma JoinTwo(s: string, a: string, b: string)
    ensures s + Join([a]) == s + a
    ensures s + Join([a, b]) == s + a + b
  {
    JoinOneMore([], a);
    JoinOneMore([a], b);
    assert [] + [a] == [a] && [a] + [b] == [a, b];
    assert Join([a, b]) == a + b;
  }

  lemma BorrowJoins(r: Request)
    requires r.Borrow?
    ensures Data(r) == Selector(r) + Join(EncodeAll(Params(r)))
  {
    var ws := EncodeAll(Params(r));
    JoinSix(Selector(r), ws[0], ws[1], ws[2], ws[3], ws[4], ws[5]);
    assert ws == [ws[0], ws[1], ws[2], ws[3], ws[4], ws[5]];
  }

  lemma DepositJoins(r: Request)
    requires r.Deposit?
    ensures Data(r) == Selector(r) + Join(EncodeAll(Params(r)))
  {
    var ws := EncodeAll(Params(r));
    JoinFour(Selector(r), ws[0], ws[1], ws[2], ws[3]);
    assert ws == [ws[0], ws[1], ws[2], ws[3]];
  }

  lemma RepayJoins(r: Request)
    requires r.Repay?
    ensures Data(r) == Selector(r) + Join(EncodeAll(Params(r)))
  {
    var ws := EncodeAll(Params(r));
    JoinThree(Selector(r), ws[0], ws[1], ws[2]);
    assert ws == [ws[0], ws[1], ws[2]];
  }

  lemma ShortJoins(r: Request)
    requires |Params(r)| <= 2
    ensures Data(r) == Selector(r) + Join(EncodeAll(Params(r)))
  {
    var ws := EncodeAll(Params(r));
    if |ws| == 1 {
      JoinTwo(Selector(r), ws[0], "");
      assert ws == [ws[0]];
    } else {
      JoinTwo(Selector(r), ws[0], ws[1]);
      assert ws == [ws[0], ws[1]];
    }
  }

  lemma DataJoins(r: Request)
    ensures Data(r) == Selector(r) + Join(EncodeAll(Params(r)))
  {
    match r
    case Borrow(_, _, _, _, _) => BorrowJoins(r);
    case Deposit(_, _, _) => DepositJoins(r);
    case Repay(_, _, _) => RepayJoins(r);
    case _ => ShortJoins(r);
  }

  /** The data of every request with valid arguments is its selector and one aligned word for each
      declared parameter, and every word reads back as that parameter. */
  lemma RequestReadsBack(r: Request)
    requires forall i :: 0 <= i < |Params(r)| ==> ValidArg(Params(r)[i])
    ensures Calls(Data(r), Selector(r), Params(r))
  {
    DataJoins(r);
    SelectorLength(r);
    CallsIfJoined(Data(r), Selector(r), EncodeAll(Params(r)), Params(r));
  }

  lemma SelectorLength(r: Request)
    ensures |Selector(r)| == 10
  {
  }

  /** The number and the address at a place of the data, as the contract reads them. */
  function NumberAt(data: string, i: nat): Option<nat>
    requires |data| >= 10
  {
    Word("0x" + data[10..], i)
  }

  function AddressAt(data: string, i: nat): string
    requires |data| >= 10
  {
    AddrWord("0x" + data[10..], i)
  }

  /** What the contract finds in the data of the three calls of the pool, place by place. */
  lemma DepositRead(asset: string, account: string, units: nat)
    requires IsHexAddress(asset) && IsHexAddress(account) && units < UINT_BOUND
    ensures var d := Data(Deposit(asset, units, account));
            && |d| == 10 + 4 * WORD && AddressAt(d, 0) == Lower(asset) && NumberAt(d, 1) == Some(units)
            && AddressAt(d, 2) == Lower(account) && NumberAt(d, 3) == Some(0)
  {
    hide Data, ReadsAs;
    ReadsAsMeans(Deposit(asset, units, account));
  }

  lemma BorrowRead(asset: string, nft: string, account: string, units: nat, id: nat)
    requires IsHexAddress(asset) && IsHexAddress(nft) && IsHexAddress(account) && units < UINT_BOUND && id < UINT_BOUND
    ensures var d := Data(Borrow(asset, units, nft, id, account));
            && |d| == 10 + 6 * WORD && AddressAt(d, 0) == Lower(asset) && NumberAt(d, 1) == Some(units)
            && AddressAt(d, 2) == Lower(nft) && NumberAt(d, 3) == Some(id)
            && AddressAt(d, 4) == Lower(account) && NumberAt(d, 5) == Some(0)
  {
    hide Data, ReadsAs;
    ReadsAsMeans(Borrow(asset, units, nft, id, account));
  }

  lemma RepayRead(nft: string, id: nat, units: nat)
    requires IsHexAddress(nft) && units < UINT_BOUND && id < UINT_BOUND
    ensures var d := Data(Repay(nft, id, units));
            && |d| == 10 + 3 * WORD && AddressAt(d, 0) == Lower(nft) && NumberAt(d, 1) == Some(id)
            && NumberAt(d, 2) == Some(units)
  {
    hide Data, ReadsAs;
    ReadsAsMeans(Repay(nft, id, units));
  }

  /** And in the data of the other calls. */
  lemma TokenCallsRead(a: string, b: string, n: nat)
    requires IsHexAddress(a) && IsHexAddress(b) && n < UINT_BOUND
    ensures var d := Data(OwnerOf(n)); |d| == 10 + WORD && NumberAt(d, 0) == Some(n)
    ensures var d := Data(GetApproved(n)); |d| == 10 + WORD && NumberAt(d, 0) == Some(n)
    ensures var d := Data(Approve(a, n)); |d| == 10 + 2 * WORD && AddressAt(d, 0) == Lower(a) && NumberAt(d, 1) == Some(n)
    ensures var d := Data(Allowance(a, b));
            |d| == 10 + 2 * WORD && AddressAt(d, 0) == Lower(a) && AddressAt(d, 1) == Lower(b)
    ensures var d := Data(CollateralData(a, b));
            |d| == 10 + 2 * WORD && AddressAt(d, 0) == Lower(a) && AddressAt(d, 1) == Lower(b)
    ensures var d := Data(DebtData(a, n)); |d| == 10 + 2 * WORD && AddressAt(d, 0) == Lower(a) && NumberAt(d, 1) == Some(n)
  {
    hide Data, ReadsAs;
    ReadsAsMeans(OwnerOf(n));
    ReadsAsMeans(GetApproved(n));
    ReadsAsMeans(Approve(a, n));
    ReadsAsMeans(Allowance(a, b));
    ReadsAsMeans(CollateralData(a, b));
    ReadsAsMeans(DebtData(a, n));
  }

  lemma ReadsAsMeans(r: Request)
    requires forall i :: 0 <= i < |Params(r)| ==> ValidArg(Params(r)[i])
    ensures |Data(r)| == 10 + |Params(r)| * WORD
    ensures forall i :: 0 <= i < |Params(r)| ==>
              match Params(r)[i]
              case AddressArg(a) => AddressAt(Data(r), i) == Lower(a)
              case UintArg(n) => n >= 0 && NumberAt(Data(r), i) == Some(n)
  {
    RequestReadsBack(r);
    forall i | 0 <= i < |Params(r)|
      ensures match Params(r)[i]
              case AddressArg(a) => AddressAt(Data(r), i) == Lower(a)
              case UintArg(n) => n >= 0 && NumberAt(Data(r), i) == Some(n)
    {
      assert ReadsAs("0x" + Data(r)[10..], i, Params(r)[i]);
    }
  }

  /** The selectors of the contracts' functions; approve is the same function of both token standards. */
  lemma SelectorsExactly(r: Request)
    ensures Data(r)[..10] == (match r
                              case OwnerOf(_) => "0x6352211e"
                              case GetApproved(_) => "0x081812fc"
                              case Approve(_, _) => "0x095ea7b3"
                              case Allowance(_, _) => "0xdd62ed3e"
                              case CollateralData(_, _) => "0xcc8ccdf2"
                              case DebtData(_, _) => "0xec765d3d"
                              case Deposit(_, _, _) => "0xe8eda9df"
                              case Borrow(_, _, _, _, _) => "0xb6529aee"
                              case Repay(_, _, _) => "0x8cd2e0c7")
  {
    DataJoins(r);
    SelectorLength(r);
  }

  /** What reaches the encoder: checked addresses, and numbers of any size and sign. */
  predicate Checked(arg: Arg) {
    arg.AddressArg? ==> IsHexAddress(arg.address)
  }

  predicate Negative(arg: Arg) {
    arg.UintArg? && arg.value < 0
  }

  lemma CheckedWord(arg: Arg)
    requires Checked(arg) && !Negative(arg)
    ensures |Encode(arg)| >= WORD
    ensures |Encode(arg)| == WORD <==> ValidArg(arg)
  {
    match arg
    case AddressArg(a) => PadAddrWord(a);
    case UintArg(n) => PadUintWord(n);
  }

  lemma {:induction false} JoinLengthExactlyIf(words: seq<string>)
    requires forall i :: 0 <= i < |words| ==> |words[i]| >= WORD
    ensures |Join(words)| >= |words| * WORD
    ensures |Join(words)| == |words| * WORD <==> Aligned(words)
  {
    if words != [] {
      var before := words[..|words| - 1];
      JoinLengthExactlyIf(before);
      assert Aligned(words) <==> Aligned(before) && |words[|words| - 1]| == WORD;
    }
  }

  /** For checked addresses and any numbers: the contract can read the data of a request as its arguments if
      and only if every number is a 256-bit number. */
  lemma RequestReadsBackExactlyIf(r: Request)
    requires forall i :: 0 <= i < |Params(r)| ==> Checked(Params(r)[i])
    ensures Calls(Data(r), Selector(r), Params(r)) <==> forall i :: 0 <= i < |Params(r)| ==> ValidArg(Params(r)[i])
  {
    if forall i :: 0 <= i < |Params(r)| ==> ValidArg(Params(r)[i]) {
      RequestReadsBack(r);
    } else if i :| 0 <= i < |Params(r)| && Negative(Params(r)[i]) {
      assert !ReadsAs("0x" + (if |Data(r)| >= 10 then Data(r)[10..] else ""), i, Params(r)[i]);
    } else {
      var words := EncodeAll(Params(r));
      forall i | 0 <= i < |words| ensures |words[i]| >= WORD && (|words[i]| == WORD <==> ValidArg(Params(r)[i])) {
        CheckedWord(Params(r)[i]);
      }
      DataJoins(r);
      SelectorLength(r);
      JoinLengthExactlyIf(words);
    }
  }

  // ----- which word goes wrong -----

  /** Dropping digits makes the value smaller. */
  lemma {:induction false} FewerDigits(n: nat, m: nat)
    requires 0 < m < |ToHex(n)|
    ensures ParseHex(ToHex(n)[..m]).Some? && ParseHex(ToHex(n)[..m]).value < n
  {
    var front := ToHex(n / 16);
    assert ToHex(n)[..m] == front[..m];
    if m == |front| {
      assert front[..m] == front;
      ParseToHex(n / 16);
    } else {
      FewerDigits(n / 16, m);
    }
  }

  lemma OversizedDigits(n: nat)
    requires n >= UINT_BOUND
    ensures |PadUint(n)| > WORD && ParseHex(PadUint(n)[..WORD]) != Some(n)
  {
    WordBound(WORD);
    HexLength(n, WORD);
    FewerDigits(n, WORD);
  }

  lemma {:induction false} OversizedMisreads(words: seq<string>, i: nat, n: nat)
    requires i < |words| && words[i] == PadUint(n) && n >= UINT_BOUND && Aligned(words[..i])
    ensures !ReadsAs("0x" + Join(words), i, UintArg(n))
  {
    OversizedDigits(n);
    JoinSlices(words, i);
  }

  /** Of the numbers that are no 256-bit numbers, the first does not read back from its own place, while
      everything in front of it does. */
  lemma FirstInvalidMisreads(r: Request, i: nat)
    requires forall j :: 0 <= j < |Params(r)| ==> Checked(Params(r)[j])
    requires i < |Params(r)| && !ValidArg(Params(r)[i]) && forall j :: 0 <= j < i ==> ValidArg(Params(r)[j])
    ensures |Data(r)| >= 10 && Data(r)[..10] == Selector(r)
    ensures !ReadsAs("0x" + Data(r)[10..], i, Params(r)[i])
    ensures forall j :: 0 <= j < i ==> ReadsAs("0x" + Data(r)[10..], j, Params(r)[j])
  {
    var words := EncodeAll(Params(r));
    DataJoins(r);
    SelectorLength(r);
    assert Data(r)[10..] == Join(words);
    forall j | 0 <= j < i ensures |words[j]| == WORD {
      EncodedWord(Params(r)[j]);
    }
    if !Negative(Params(r)[i]) {
      OversizedMisreads(words, i, Params(r)[i].value);
    }
    forall j | 0 <= j < i ensures ReadsAs("0x" + Join(words), j, Params(r)[j]) {
      WordsReadBack(words, j, Params(r)[j]);
    }
  }

  // ----- token ids typed in by the user -----

  predicate IsDecimal(s: string) {
    forall i :: 0 <= i < |s| ==> '0' <= s[i] <= '9'
  }

  predicate IsTokenId(s: string) {
    1 <= |s| <= 78 && IsDecimal(s)
  }

  /** BigInt of a string of decimal digits. */
  function ParseDecimal(s: string): nat
    requires IsDecimal(s)
  {
    if s == "" then 0 else ParseDecimal(s[..|s| - 1]) * 10 + (s[|s| - 1] - '0') as nat
  }

  /** A number as the user types it. */
  function ToDecimal(n: nat): (s: string)
    ensures |s| >= 1 && IsDecimal(s)
  {
    if n < 10 then ["0123456789"[n]] else ToDecimal(n / 10) + ["0123456789"[n % 10]]
  }

  lemma {:induction false} DecimalLength(n: nat, k: nat)
    requires k > 0
    ensures |ToDecimal(n)| <= k <==> n < Pow(10, k)
  {
    if k == 1 {
      assert Pow(10, 1) == 10;
    } else {
      assert Pow(10, k) == 10 * Pow(10, k - 1);
      PowPositive(10, k - 1);
      if n >= 10 {
        DecimalLength(n / 10, k - 1);
      }
    }
  }

  lemma {:induction false} DecimalValue(n: nat)
    ensures ParseDecimal(ToDecimal(n)) == n
  {
    if n >= 10 {
      DecimalValue(n / 10);
      assert ToDecimal(n)[..|ToDecimal(n)| - 1] == ToDecimal(n / 10);
    }
  }

  /** A number typed in decimal is accepted as a token id exactly if it has at most 78 digits, and is read as
      itself. */
  lemma {:induction false} TypedTokenId(n: nat, digits: nat)
    requires digits == 78
    ensures IsTokenId(ToDecimal(n)) <==> n < Pow(10, digits)
    ensures ParseDecimal(ToDecimal(n)) == n
  {
    DecimalLength(n, digits);
    DecimalValue(n);
  }

  /** Anything but digits is refused, and so is nothing at all. */
  lemma OtherTokenIdsRefused(s: string, i: nat)
    requires s == "" || (i < |s| && !('0' <= s[i] <= '9'))
    ensures !IsTokenId(s)
  {
  }

  lemma {:induction false} DecimalBound(s: string)
    requires IsDecimal(s)
    ensures ParseDecimal(s) < Pow(10, |s|)
  {
    if s != "" {
      DecimalBound(s[..|s| - 1]);
    }
  }

  lemma {:induction false} PowMonotone(b: nat, m: nat, n: nat)
    requires b >= 1 && m <= n
    ensures Pow(b, m) <= Pow(b, n)
  {
    if m < n {
      PowMonotone(b, m, n - 1);
      PowPositive(b, n - 1);
    }
  }

  lemma PowTenEight(n: nat)
    requires n == 8
    ensures Pow(10, n) == 100_000_000 && Pow(10, n - 3) == 100_000 && Pow(10, n - 2) == 1_000_000
  {
    assert Pow(10, n - 7) == 10 && Pow(10, n - 6) == 100 && Pow(10, n - 5) == 1000 && Pow(10, n - 4) == 10_000;
    assert Pow(10, n - 3) == 100_000 && Pow(10, n - 2) == 1_000_000 && Pow(10, n - 1) == 10_000_000;
  }

  /** How the powers of ten for 77 and 78 digits lie to the bound of a word. */
  lemma {:induction false} DigitsAgainstBound(eight: nat)
    requires eight == 8
    ensures Pow(10, 10 * eight - 3) < UINT_BOUND
    ensures UINT_BOUND < Pow(10, 10 * eight - 2) < 16 * UINT_BOUND
  {
    PowTenEight(eight);
    PowAdd(10, eight, eight);
    PowAdd(10, 2 * eight, 2 * eight);
    PowAdd(10, 4 * eight, 4 * eight);
    PowAdd(10, 8 * eight, eight);
    PowAdd(10, 9 * eight, eight - 3);
    PowAdd(10, 9 * eight, eight - 2);
  }

  /** Every token id of at most 77 digits fits into a word. */
  lemma {:induction false} ShortTokenIdFits(s: string)
    requires IsTokenId(s) && |s| <= 77
    ensures ParseDecimal(s) < UINT_BOUND
  {
    DecimalBound(s);
    PowMonotone(10, |s|, 77);
    DigitsAgainstBound(8);
  }

  /** An accepted token id takes one word, or one digit more exactly if it is no 256-bit number. */
  lemma {:induction false} TokenIdWidth(s: string)
    requires IsTokenId(s)
    ensures |PadUint(ParseDecimal(s))| == if ParseDecimal(s) < UINT_BOUND then WORD else WORD + 1
  {
    var n := ParseDecimal(s);
    DecimalBound(s);
    PowMonotone(10, |s|, 78);
    DigitsAgainstBound(8);
    PadUintWord(n);
    WordBound(WORD);
    PowAdd(16, 1, WORD);
    SixteenTimes();
    HexLength(n, WORD + 1);
    HexLength(n, WORD);
  }

  lemma SixteenTimes()
    ensures Pow(16, 1) == 16
  {
  }

  function Nines(n: nat): (s: string)
    ensures |s| == n && IsDecimal(s)
  {
    seq(n, i => '9')
  }

  lemma {:induction false} NinesValue(n: nat)
    ensures ParseDecimal(Nines(n)) == Pow(10, n) - 1
  {
    if n > 0 {
      NinesValue(n - 1);
      assert Nines(n)[..n - 1] == Nines(n - 1);
    }
  }

  /** The id of 78 nines is accepted and is no 256-bit number. */
  lemma TokenIdCanExceedWord(digits: nat)
    requires digits == 78
    ensures IsTokenId(Nines(digits)) && ParseDecimal(Nines(digits)) >= UINT_BOUND
  {
    NinesValue(digits);
    DigitsAgainstBound(8);
  }

  /** The same for borrow data and its six words. */
  lemma {:induction false} BorrowAlignedExactlyIf(asset: string, units: nat, nft: string, tokenId: string,
                                                  account: string)
    requires IsHexAddress(asset) && IsHexAddress(nft) && IsHexAddress(account)
    requires IsTokenId(tokenId) && units < UINT_BOUND
    ensures |Data(Borrow(asset, units, nft, ParseDecimal(tokenId), account))| ==
            10 + 6 * WORD + if ParseDecimal(tokenId) < UINT_BOUND then 0 else 1
  {
    PadAddrWord(asset);
    PadAddrWord(nft);
    PadAddrWord(account);
    PadUintWord(units);
    PadUintWord(0);
    TokenIdWidth(tokenId);
  }

  /** The repay data keeps its three words exactly if the accepted token id is a 256-bit number, and is
      one digit too long otherwise. */
  lemma {:induction false} RepayAlignedExactlyIf(nft: string, tokenId: string, units: nat)
    requires IsHexAddress(nft) && IsTokenId(tokenId) && units < UINT_BOUND
    ensures |Data(Repay(nft, ParseDecimal(tokenId), units))| ==
            10 + 3 * WORD + if ParseDecimal(tokenId) < UINT_BOUND then 0 else 1
  {
    PadAddrWord(nft);
    PadUintWord(units);
    TokenIdWidth(tokenId);
  }
}
