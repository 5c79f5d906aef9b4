/** The list of borrow positions kept in local storage: newest first, one entry per token, at most 25. */
module Positions {
  import opened Wrappers
  import opened AbiWords

  const LIMIT := 25

  /** An entry as it is read back; entries of other origin may lack a collection or a token id. */
  datatype Position = Position(collection: Option<string>, tokenId: Option<string>, hash: string, detail: string)

  /** What sits under the storage key. */
  datatype Stored = Absent | Unparsable | NotAList | List(entries: seq<Position>)

  predicate ValidHash(hash: string) {
    |hash| == 66 && hash[..2] == "0x" && forall i :: 2 <= i < 66 ==> DigitValue(hash[i]).Some?
  }

  predicate SameToken(p: Position, q: Position) {
    p.collection.Some? && q.collection.Some? && Lower(p.collection.value) == Lower(q.collection.value) &&
    p.tokenId == q.tokenId
  }

  function WithValidHash(ps: seq<Position>): seq<Position> {
    if ps == [] then []
    else (if ValidHash(ps[0].hash) then [ps[0]] else []) + WithValidHash(ps[1..])
  }

  function Without(ps: seq<Position>, q: Position): seq<Position> {
    if ps == [] then []
    else (if SameToken(ps[0], q) then [] else [ps[0]]) + Without(ps[1..], q)
  }

  function Take(ps: seq<Position>, n: nat): seq<Position> {
    if n <= |ps| then ps[..n] else ps
  }

  function Load(stored: Stored): seq<Position> {
    if stored.List? then WithValidHash(stored.entries) else []
  }

  function Saved(stored: Stored, pos: Position): Stored {
    List(Take([pos] + Without(Load(stored), pos), LIMIT))
  }

  function SavedAll(stored: Stored, saves: seq<Position>): Stored {
    if saves == [] then stored else Saved(SavedAll(stored, saves[..|saves| - 1]), saves[|saves| - 1])
  }

  class PositionStore {
    var stored: Stored

    method LoadPositions() returns (ps: seq<Position>)
      ensures ps == Load(stored)
    {
      match stored {
        case List(entries) => ps := WithValidHash(entries);
        case _ => ps := [];
      }
    }

    method SavePosition(pos: Position)
      requires pos.collection.Some?
      modifies this
      ensures stored == Saved(old(stored), pos)
      ensures NewestFirst(Load(old(stored)), pos, stored.entries)
    {
      var loaded := LoadPositions();
      var next := Without(loaded, pos);
      next := [pos] + next;
      stored := List(Take(next, LIMIT));
      SavedIsNewestFirst(old(stored), pos);
    }
  }

  /** The entries behind a save: the saved one in front, then the newest of the older entries of other
      tokens in their old order, and all of those unless 25 entries are there without them. */
  ghost predicate NewestFirst(older: seq<Position>, pos: Position, entries: seq<Position>) {
    && 1 <= |entries| <= 25 && entries[0] == pos
    && (forall i :: 1 <= i < |entries| ==> !SameToken(entries[i], pos))
    && (exists kept :: KeepsOrder(older, kept, entries[1..]) && SkipsOnly(older, kept, pos))
    && (|entries| < 25 ==> forall p :: p in older && !SameToken(p, pos) ==> p in entries[1..])
  }

  /** The entries are the older ones at these positions, which ascend. */
  predicate KeepsOrder(older: seq<Position>, kept: seq<nat>, entries: seq<Position>) {
    && |kept| == |entries|
    && (forall i :: 0 <= i < |kept| ==> kept[i] < |older| && older[kept[i]] == entries[i])
    && (forall i, j :: 0 <= i < j < |kept| ==> kept[i] < kept[j])
  }

  /** Up to the last position kept, only entries of this token are passed over. */
  predicate SkipsOnly(older: seq<Position>, kept: seq<nat>, pos: Position) {
    forall i, j :: 0 <= i < |kept| && 0 <= j < kept[i] && j < |older| && j !in kept ==> SameToken(older[j], pos)
  }

  predicate KeepsAll(older: seq<Position>, kept: seq<nat>, pos: Position) {
    forall j :: 0 <= j < |older| && !SameToken(older[j], pos) ==> j in kept
  }

  lemma {:induction false} WithoutKeepsOrder(ps: seq<Position>, q: Position) returns (kept: seq<nat>)
    ensures KeepsOrder(ps, kept, Without(ps, q)) && KeepsAll(ps, kept, q)
  {
    if ps == [] {
      kept := [];
    } else {
      var before, last := ps[..|ps| - 1], ps[|ps| - 1];
      assert before + [last] == ps;
      WithoutConcat(before, [last], q);
      kept := WithoutKeepsOrder(before, q);
      if SameToken(last, q) {
        assert Without([last], q) == [];
      } else {
        assert Without([last], q) == [last];
        KeptOneMore(before, last, kept, Without(before, q), q);
        kept := kept + [|before|];
      }
    }
  }

  lemma {:induction false} KeptOneMore(before: seq<Position>, last: Position, kept: seq<nat>, others: seq<Position>,
                                       q: Position)
    requires KeepsOrder(before, kept, others) && KeepsAll(before, kept, q)
    ensures KeepsOrder(before + [last], kept + [|before|], others + [last])
    ensures KeepsAll(before + [last], kept + [|before|], q)
  {
  }

  lemma {:induction false} PrefixKeepsOrder(older: seq<Position>, kept: seq<nat>, entries: seq<Position>, n: nat,
                                            pos: Position)
    requires KeepsOrder(older, kept, entries) && KeepsAll(older, kept, pos) && n <= |entries|
    ensures KeepsOrder(older, kept[..n], entries[..n]) && SkipsOnly(older, kept[..n], pos)
  {
    forall i, j | 0 <= i < n && 0 <= j < kept[i] && j < |older| && j !in kept[..n] ensures SameToken(older[j], pos) {
      forall m | 0 <= m < |kept| ensures kept[m] != j {
        if m < n {
          assert kept[m] == kept[..n][m];
        }
      }
    }
  }

  lemma {:induction false} SavedIsNewestFirst(stored: Stored, pos: Position)
    ensures NewestFirst(Load(stored), pos, Saved(stored, pos).entries)
  {
    var older, entries := Load(stored), Saved(stored, pos).entries;
    var others := Without(older, pos);
    WithoutMembers(older, pos);
    assert entries == [pos] + Take(others, LIMIT - 1);
    BehindTheSaved(older, others, pos, entries);
    assert exists kept :: KeepsOrder(older, kept, entries[1..]) && SkipsOnly(older, kept, pos) by {
      var kept := WithoutKeepsOrder(older, pos);
      PrefixKeepsOrder(older, kept, others, |entries| - 1, pos);
    }
  }

  lemma {:induction false} BehindTheSaved(older: seq<Position>, others: seq<Position>, pos: Position,
                                          entries: seq<Position>)
    requires forall p :: p in others <==> p in older && !SameToken(p, pos)
    requires entries == [pos] + Take(others, LIMIT - 1)
    ensures entries[1..] == others[..|entries| - 1]
    ensures forall i :: 1 <= i < |entries| ==> !SameToken(entries[i], pos)
    ensures |entries| < LIMIT ==> forall p :: p in older && !SameToken(p, pos) ==> p in entries[1..]
  {
    forall i | 1 <= i < |entries| ensures !SameToken(entries[i], pos) {
      assert others[i - 1] in others;
    }
    if |entries| < LIMIT {
      assert entries[1..] == others;
    }
  }

  // ----- the unbounded list it abbreviates -----

  predicate Replaced(p: Position, saves: seq<Position>) {
    exists i :: 0 <= i < |saves| && SameToken(p, saves[i])
  }

  /** The saves that no later save of the same token replaces, newest first. */
  function Latest(saves: seq<Position>): seq<Position> {
    if saves == [] then []
    else Latest(saves[1..]) + if Replaced(saves[0], saves[1..]) then [] else [saves[0]]
  }

  /** The older entries that no save replaces, in their order. */
  function Survivors(earlier: seq<Position>, saves: seq<Position>): seq<Position> {
    if earlier == [] then []
    else (if Replaced(earlier[0], saves) then [] else [earlier[0]]) + Survivors(earlier[1..], saves)
  }

  function Unbounded(earlier: seq<Position>, saves: seq<Position>): seq<Position> {
    Latest(saves) + Survivors(earlier, saves)
  }

  predicate Distinct(ps: seq<Position>) {
    ps == [] || (!Replaced(ps[0], ps[1..]) && Distinct(ps[1..]))
  }

  /** Which is to say that no two entries are of the same token. */
  lemma {:induction false} DistinctExactlyIf(ps: seq<Position>)
    ensures Distinct(ps) <==> forall i, j :: 0 <= i < j < |ps| ==> !SameToken(ps[i], ps[j])
  {
    if ps != [] {
      DistinctExactlyIf(ps[1..]);
      if Distinct(ps) {
        forall i, j | 0 <= i < j < |ps| ensures !SameToken(ps[i], ps[j]) {
          assert ps[j] == ps[1..][j - 1];
          if i > 0 {
            assert ps[i] == ps[1..][i - 1];
          }
        }
      } else if Replaced(ps[0], ps[1..]) {
        var k :| 0 <= k < |ps[1..]| && SameToken(ps[0], ps[1..][k]);
        assert ps[1..][k] == ps[k + 1];
      } else {
        var i, j :| 0 <= i < j < |ps[1..]| && SameToken(ps[1..][i], ps[1..][j]);
        assert ps[1..][i] == ps[i + 1] && ps[1..][j] == ps[j + 1];
      }
    }
  }

  lemma {:induction false} WithoutConcat(a: seq<Position>, b: seq<Position>, q: Position)
    ensures Without(a + b, q) == Without(a, q) + Without(b, q)
  {
    if a == [] {
      assert a + b == b;
    } else {
      assert (a + b)[1..] == a[1..] + b;
      WithoutConcat(a[1..], b, q);
    }
  }

  lemma ReplacedOneMore(p: Position, saves: seq<Position>, q: Position)
    ensures Replaced(p, saves + [q]) <==> Replaced(p, saves) || SameToken(p, q)
  {
    if SameToken(p, q) {
      assert (saves + [q])[|saves|] == q;
    }
    if i :| 0 <= i < |saves| && SameToken(p, saves[i]) {
      assert (saves + [q])[i] == saves[i];
    }
  }

  lemma {:induction false} LatestOneMore(saves: seq<Position>, q: Position)
    ensures Latest(saves + [q]) == [q] + Without(Latest(saves), q)
  {
    if saves == [] {
      assert saves + [q] == [q];
      assert !Replaced(q, []);
    } else {
      assert (saves + [q])[1..] == saves[1..] + [q];
      LatestOneMore(saves[1..], q);
      ReplacedOneMore(saves[0], saves[1..], q);
      WithoutConcat(Latest(saves[1..]), if Replaced(saves[0], saves[1..]) then [] else [saves[0]], q);
    }
  }

  lemma {:induction false} SurvivorsOneMore(earlier: seq<Position>, saves: seq<Position>, q: Position)
    ensures Survivors(earlier, saves + [q]) == Without(Survivors(earlier, saves), q)
  {
    if earlier != [] {
      SurvivorsOneMore(earlier[1..], saves, q);
      ReplacedOneMore(earlier[0], saves, q);
      WithoutConcat(if Replaced(earlier[0], saves) then [] else [earlier[0]], Survivors(earlier[1..], saves), q);
    }
  }

  lemma {:induction false} UnboundedOneMore(earlier: seq<Position>, saves: seq<Position>, q: Position)
    ensures Unbounded(earlier, saves + [q]) == [q] + Without(Unbounded(earlier, saves), q)
  {
    LatestOneMore(saves, q);
    SurvivorsOneMore(earlier, saves, q);
    ConcatOneMore(Latest(saves + [q]), Latest(saves), Survivors(earlier, saves), q);
  }

  lemma {:induction false} ConcatOneMore(newer: seq<Position>, a: seq<Position>, b: seq<Position>, q: Position)
    requires newer == [q] + Without(a, q)
    ensures newer + Without(b, q) == [q] + Without(a + b, q)
  {
    WithoutConcat(a, b, q);
  }

  // ----- cutting commutes with saving -----

  lemma {:induction false} WithoutMembers(ps: seq<Position>, q: Position)
    ensures forall p :: p in Without(ps, q) <==> p in ps && !SameToken(p, q)
    ensures |Without(ps, q)| <= |ps|
    ensures (forall p :: p in ps ==> !SameToken(p, q)) ==> Without(ps, q) == ps
  {
    if ps != [] {
      WithoutMembers(ps[1..], q);
      assert ps == [ps[0]] + ps[1..];
    }
  }

  /** In a list without duplicates, only the head goes if it is the token looked for. */
  lemma {:induction false} OnlyHeadGoes(ps: seq<Position>, q: Position)
    requires ps != [] && Distinct(ps) && SameToken(ps[0], q)
    ensures Without(ps, q) == ps[1..]
  {
    forall p | p in ps[1..] ensures !SameToken(p, q) {
      var i :| 0 <= i < |ps[1..]| && ps[1..][i] == p;
    }
    WithoutMembers(ps[1..], q);
  }

  lemma {:induction false} DistinctPrefix(ps: seq<Position>, n: nat)
    requires Distinct(ps) && n <= |ps|
    ensures Distinct(ps[..n])
  {
    if n > 0 {
      assert ps[..n][1..] == ps[1..][..n - 1];
      DistinctPrefix(ps[1..], n - 1);
    }
  }

  lemma {:induction false} HeadStays(ps: seq<Position>, q: Position)
    requires ps != [] && !SameToken(ps[0], q)
    ensures Without(ps, q) == [ps[0]] + Without(ps[1..], q)
  {
  }

  /** In a list without duplicates the first n - 1 entries other than q's token lie among its first n. */
  lemma {:induction false} CutCommutes(ps: seq<Position>, q: Position, n: nat)
    requires Distinct(ps) && n >= 1
    ensures Take(Without(ps, q), n - 1) == Take(Without(Take(ps, n), q), n - 1)
  {
    if n < |ps| {
      assert ps[..n][1..] == ps[1..][..n - 1] && ps[..n][0] == ps[0];
      if SameToken(ps[0], q) {
        DistinctPrefix(ps, n);
        OnlyHeadGoes(ps, q);
        OnlyHeadGoes(ps[..n], q);
      } else {
        HeadStays(ps, q);
        HeadStays(ps[..n], q);
        if n > 1 {
          CutCommutes(ps[1..], q, n - 1);
          TakeCons(ps[0], Without(ps[1..], q), n - 1);
          TakeCons(ps[0], Without(ps[1..][..n - 1], q), n - 1);
        }
      }
    } else {
      assert Take(ps, n) == ps;
    }
  }

  lemma ReplacedByMember(p: Position, ps: seq<Position>)
    ensures Replaced(p, ps) <==> exists q :: q in ps && SameToken(p, q)
  {
    if q :| q in ps && SameToken(p, q) {
      var i :| 0 <= i < |ps| && ps[i] == q;
    }
  }

  lemma {:induction false} WithoutStaysDistinct(ps: seq<Position>, q: Position)
    requires Distinct(ps)
    ensures Distinct(Without(ps, q))
  {
    if ps != [] {
      WithoutStaysDistinct(ps[1..], q);
      if SameToken(ps[0], q) {
        assert Without(ps, q) == Without(ps[1..], q);
      } else {
        HeadStays(ps, q);
        WithoutMembers(ps[1..], q);
        ReplacedByMember(ps[0], ps[1..]);
        ReplacedByMember(ps[0], Without(ps[1..], q));
        assert Without(ps, q)[1..] == Without(ps[1..], q);
      }
    }
  }

  lemma {:induction false} WithoutDistinct(ps: seq<Position>, q: Position)
    requires Distinct(ps)
    ensures Distinct([q] + Without(ps, q))
  {
    var rest := Without(ps, q);
    WithoutStaysDistinct(ps, q);
    WithoutMembers(ps, q);
    ReplacedByMember(q, rest);
    assert ([q] + rest)[1..] == rest;
  }

  lemma {:induction false} AllValid(ps: seq<Position>)
    ensures (forall p :: p in ps ==> ValidHash(p.hash)) ==> WithValidHash(ps) == ps
    ensures forall p :: p in WithValidHash(ps) ==> p in ps && ValidHash(p.hash)
  {
    if ps != [] {
      AllValid(ps[1..]);
      assert ps == [ps[0]] + ps[1..];
    }
  }

  /** What is read back after a save is what was written. */
  lemma {:induction false} LoadSaved(stored: Stored, pos: Position)
    requires ValidHash(pos.hash)
    ensures Load(Saved(stored, pos)) == Take([pos] + Without(Load(stored), pos), LIMIT)
  {
    if stored.List? {
      AllValid(stored.entries);
    }
    WithoutMembers(Load(stored), pos);
    AllValid(Saved(stored, pos).entries);
  }

  /** A hash as the chain prints it is accepted, and nothing of another length or with another character. */
  lemma HashesExactly(hash: string)
    ensures ValidHash(hash) <==> |hash| == 66 && hash[..2] == "0x" && AllHex(hash[2..])
    ensures forall n: nat :: n < UINT_BOUND ==> ValidHash("0x" + PadUint(n))
  {
    if |hash| == 66 {
      assert forall i :: 2 <= i < 66 ==> hash[i] == hash[2..][i - 2];
      assert forall i :: 0 <= i < 64 ==> hash[2..][i] == hash[i + 2];
    }
    forall n: nat | n < UINT_BOUND ensures ValidHash("0x" + PadUint(n)) {
      PadUintWord(n);
      ParsedIsHex(PadUint(n));
      var printed := "0x" + PadUint(n);
      assert forall i :: 2 <= i < 66 ==> printed[i] == PadUint(n)[i - 2];
    }
  }

  predicate AllHex(s: string) {
    forall i :: 0 <= i < |s| ==> '0' <= s[i] <= '9' || 'a' <= s[i] <= 'f' || 'A' <= s[i] <= 'F'
  }

  lemma {:induction false} ParsedIsHex(s: string)
    requires ParseHex(s).Some?
    ensures forall i :: 0 <= i < |s| ==> DigitValue(s[i]).Some?
  {
    if |s| > 1 {
      ParsedIsHex(s[..|s| - 1]);
      assert forall i :: 0 <= i < |s| - 1 ==> s[i] == s[..|s| - 1][i];
    }
  }

  /** What is read back is every entry of the stored list with an accepted hash, in order. */
  lemma {:induction false} LoadsInOrder(a: seq<Position>, p: Position, b: seq<Position>)
    ensures Load(List(a + ([p] + b))) == Load(List(a)) + ((if ValidHash(p.hash) then [p] else []) + Load(List(b)))
  {
    assert ([p] + b)[1..] == b;
    ValidHashConcat(a, [p] + b);
  }

  lemma {:induction false} ValidHashConcat(a: seq<Position>, b: seq<Position>)
    ensures WithValidHash(a + b) == WithValidHash(a) + WithValidHash(b)
  {
    if a == [] {
      assert a + b == b;
    } else {
      assert (a + b)[1..] == a[1..] + b;
      ValidHashConcat(a[1..], b);
    }
  }

  /** The collections agree in lower case, and the token ids agree. */
  predicate AgreesWith(p: Position, collection: string, tokenId: Option<string>) {
    p.collection.Some? && Lower(p.collection.value) == Lower(collection) && p.tokenId == tokenId
  }

  /** A stored position of another collection or another token id is still read back, if there is room. */
  lemma OtherPositionsStay(stored: Stored, pos: Position, p: Position)
    requires pos.collection.Some? && ValidHash(pos.hash) && |Load(stored)| < LIMIT
    requires p in Load(stored) && !AgreesWith(p, pos.collection.value, pos.tokenId)
    ensures p in Load(Saved(stored, pos))
  {
    LoadSaved(stored, pos);
    WithoutMembers(Load(stored), pos);
    var others := Without(Load(stored), pos);
    var i :| 0 <= i < |others| && others[i] == p;
    assert Take([pos] + others, LIMIT)[i + 1] == p;
  }

  /** One of the same collection, in whatever letter case, and the same token id is replaced. */
  lemma SamePositionIsReplaced(stored: Stored, pos: Position)
    requires pos.collection.Some? && ValidHash(pos.hash)
    ensures var kept := Load(Saved(stored, pos));
            && kept != [] && kept[0] == pos
            && forall p :: p in kept[1..] ==> !AgreesWith(p, pos.collection.value, pos.tokenId)
  {
    LoadSaved(stored, pos);
    WithoutMembers(Load(stored), pos);
    var kept := Load(Saved(stored, pos));
    forall p | p in kept[1..] ensures p in Without(Load(stored), pos) {
      var i :| 0 <= i < |kept[1..]| && kept[1..][i] == p;
      assert ([pos] + Without(Load(stored), pos))[i + 1] == Without(Load(stored), pos)[i];
    }
  }

  /** A position saved with a malformed hash is not read back, though it has replaced its token's entry. */
  lemma {:induction false} MalformedHashIsForgotten(stored: Stored, pos: Position)
    requires !ValidHash(pos.hash)
    ensures Load(Saved(stored, pos)) == Take(Without(Load(stored), pos), LIMIT - 1)
  {
    if stored.List? {
      AllValid(stored.entries);
    }
    WithoutMembers(Load(stored), pos);
    var rest := Take(Without(Load(stored), pos), LIMIT - 1);
    assert Saved(stored, pos).entries == [pos] + rest;
    AllValid(rest);
    assert ([pos] + rest)[1..] == rest;
  }

  /** One more save keeps two duplicate-free lists alike that agree on their first 25 entries. */
  lemma {:induction false} SaveKeepsAgreement(kept: seq<Position>, all: seq<Position>, pos: Position)
    requires Distinct(kept) && Distinct(all) && Take(kept, LIMIT) == Take(all, LIMIT)
    ensures Take([pos] + Without(kept, pos), LIMIT) == Take([pos] + Without(all, pos), LIMIT)
  {
    CutCommutes(kept, pos, LIMIT);
    CutCommutes(all, pos, LIMIT);
    TakeCons(pos, Without(kept, pos), LIMIT);
    TakeCons(pos, Without(all, pos), LIMIT);
  }

  lemma TakeTwice(ps: seq<Position>, n: nat)
    ensures Take(Take(ps, n), n) == Take(ps, n)
  {
  }

  lemma {:induction false} UnboundedDistinct(earlier: seq<Position>, saves: seq<Position>)
    requires Distinct(earlier)
    ensures Distinct(Unbounded(earlier, saves))
  {
    if saves == [] {
      NothingReplaced(earlier);
      assert Unbounded(earlier, saves) == earlier;
    } else {
      var before, pos := saves[..|saves| - 1], saves[|saves| - 1];
      UnboundedDistinct(earlier, before);
      assert before + [pos] == saves;
      UnboundedOneMore(earlier, before, pos);
      WithoutDistinct(Unbounded(earlier, before), pos);
    }
  }

  /** One more save, of lists that agree so far. */
  lemma {:induction false} OneMoreSave(stored: Stored, all: seq<Position>, pos: Position)
    requires Distinct(Load(stored)) && Distinct(all) && ValidHash(pos.hash)
    requires Take(Load(stored), LIMIT) == Take(all, LIMIT)
    ensures Load(Saved(stored, pos)) == Take([pos] + Without(all, pos), LIMIT)
    ensures Take(Load(Saved(stored, pos)), LIMIT) == Load(Saved(stored, pos))
  {
    LoadSaved(stored, pos);
    SaveKeepsAgreement(Load(stored), all, pos);
    TakeTwice([pos] + Without(Load(stored), pos), LIMIT);
  }

  lemma {:induction false} SavedAllOneMore(stored: Stored, before: seq<Position>, pos: Position)
    ensures SavedAll(stored, before + [pos]) == Saved(SavedAll(stored, before), pos)
  {
    assert (before + [pos])[..|before|] == before;
  }

  lemma {:induction false} AgreesOneMore(stored: Stored, before: seq<Position>, pos: Position)
    requires Distinct(Load(SavedAll(stored, before))) && Distinct(Unbounded(Load(stored), before)) && ValidHash(pos.hash)
    requires Take(Load(SavedAll(stored, before)), LIMIT) == Take(Unbounded(Load(stored), before), LIMIT)
    ensures var kept := Load(SavedAll(stored, before + [pos]));
            kept == Take(Unbounded(Load(stored), before + [pos]), LIMIT) && Take(kept, LIMIT) == kept
  {
    OneMoreSave(SavedAll(stored, before), Unbounded(Load(stored), before), pos);
    SavedAllOneMore(stored, before, pos);
    UnboundedOneMore(Load(stored), before, pos);
  }

  /** After any saves with valid hashes, the list read back is the first 25 entries of the unbounded
      list: cutting at every save never changes which of the newest positions are kept. */
  lemma {:induction false} StoredIsNewestOfUnbounded(stored: Stored, saves: seq<Position>)
    requires Distinct(Load(stored)) && forall p :: p in saves ==> ValidHash(p.hash)
    ensures Take(Load(SavedAll(stored, saves)), LIMIT) == Take(Unbounded(Load(stored), saves), LIMIT)
    ensures saves != [] ==> Load(SavedAll(stored, saves)) == Take(Unbounded(Load(stored), saves), LIMIT)
  {
    var earlier := Load(stored);
    if saves == [] {
      NothingReplaced(earlier);
      assert Unbounded(earlier, saves) == earlier;
    } else {
      var before, pos := saves[..|saves| - 1], saves[|saves| - 1];
      assert before + [pos] == saves && pos in saves;
      StoredIsNewestOfUnbounded(stored, before);
      SavedDistinct(stored, before);
      UnboundedDistinct(earlier, before);
      AgreesOneMore(stored, before, pos);
    }
  }

  lemma TakeCons(p: Position, ps: seq<Position>, n: nat)
    requires n >= 1
    ensures Take([p] + ps, n) == [p] + Take(ps, n - 1)
  {
  }

  lemma {:induction false} NothingReplaced(earlier: seq<Position>)
    ensures Survivors(earlier, []) == earlier
  {
    if earlier != [] {
      NothingReplaced(earlier[1..]);
      assert !Replaced(earlier[0], []);
    }
  }

  lemma {:induction false} TakeDistinct(ps: seq<Position>, n: nat)
    requires Distinct(ps)
    ensures Distinct(Take(ps, n))
  {
    if n <= |ps| {
      DistinctPrefix(ps, n);
    }
  }

  lemma {:induction false} SavedDistinct(stored: Stored, saves: seq<Position>)
    requires Distinct(Load(stored)) && forall p :: p in saves ==> ValidHash(p.hash)
    ensures Distinct(Load(SavedAll(stored, saves)))
  {
    if saves != [] {
      var before, pos := saves[..|saves| - 1], saves[|saves| - 1];
      assert pos in saves;
      SavedDistinct(stored, before);
      LoadSaved(SavedAll(stored, before), pos);
      WithoutDistinct(Load(SavedAll(stored, before)), pos);
      TakeDistinct([pos] + Without(Load(SavedAll(stored, before)), pos), LIMIT);
    }
  }
}
