/** The wheel of collections: turning it, and where each card is shown. */
module Carousel {
  import opened Modulo
  import opened Wrappers

  /** The JavaScript remainder, whose sign is that of the dividend. */
  function Remainder(i: int, n: int): int
    requires n > 0
  {
    if i >= 0 then i % n else -((-i) % n)
  }

  function WrapIndex(i: int, n: int): int
    requires n > 0
  {
    Remainder(Remainder(i, n) + n, n)
  }

  /** The offset of card j from the selected card, taken the short way round. */
  function Offset(j: int, selected: int, n: int): int
    requires n > 0
  {
    var d := j - selected;
    var d' := if 2 * d > n then d - n else d;
    if 2 * d' < -n then d' + n else d'
  }

  /** The slot a card is shown in, if it is at most two away. */
  function SlotFor(j: int, selected: int, n: int): Option<int>
    requires n > 0
  {
    var d := Offset(j, selected, n);
    if -2 <= d <= 2 then Some(d) else None
  }

  class Wheel {
    const n: int
    var nftIndex: int

    constructor (n: int)
      requires n > 0
      ensures this.n == n && nftIndex == 0
    {
      this.n := n;
      nftIndex := 0;
    }

    method RotateNft(delta: int)
      requires n > 0
      modifies this
      ensures nftIndex == (old(nftIndex) + delta) % n
    {
      WrapIsModulo(nftIndex + delta, n);
      nftIndex := WrapIndex(nftIndex + delta, n);
    }
  }

  /** wrapIndex is the Euclidean remainder, for negative indices too. */
  lemma WrapIsModulo(i: int, n: int)
    requires n > 0
    ensures WrapIndex(i, n) == i % n
  {
    if i >= 0 {
      ModuloOfSum(1, i % n, n);
    } else {
      var q, r := (-i) / n, (-i) % n;
      assert i == -q * n - r;
      if r == 0 {
        ModuloOfSum(-q, 0, n);
        ModuloOfSum(1, 0, n);
      } else {
        assert i == (-q - 1) * n + (n - r);
        ModuloOfSum(-q - 1, n - r, n);
      }
    }
  }

  lemma SameModulo(i: int, k: int, n: int)
    requires n > 0
    ensures (i + k * n) % n == i % n
  {
    assert i + k * n == (i / n + k) * n + i % n;
    ModuloOfSum(i / n + k, i % n, n);
  }

  lemma ModuloAbsorbs(x: int, b: int, n: int)
    requires n > 0
    ensures (x % n + b) % n == (x + b) % n
  {
    var q := x / n;
    assert x % n + b == (x + b) + (-q) * n;
    SameModulo(x + b, -q, n);
  }

  /** Turning twice is turning by the sum, and n turns of the same step come back. */
  lemma RotationsCompose(i: int, a: int, b: int, n: int)
    requires n > 0
    ensures WrapIndex(WrapIndex(i + a, n) + b, n) == WrapIndex(i + a + b, n)
    ensures WrapIndex(i + a * n, n) == WrapIndex(i, n)
  {
    WrapIsModulo(i + a, n);
    WrapIsModulo((i + a) % n + b, n);
    WrapIsModulo(i + a + b, n);
    ModuloAbsorbs(i + a, b, n);
    WrapIsModulo(i + a * n, n);
    WrapIsModulo(i, n);
    SameModulo(i, a, n);
  }

  function Abs(d: int): nat {
    if d < 0 then -d else d
  }

  lemma OffsetReachesCard(j: int, selected: int, n: int)
    requires 0 <= j < n && 0 <= selected < n
    ensures (selected + Offset(j, selected, n)) % n == j
  {
    var o := Offset(j, selected, n);
    var turns := if selected + o == j then 0 else if selected + o == j + n then 1 else -1;
    assert selected + o == turns * n + j;
    ModuloOfSum(turns, j, n);
  }

  /** Two offsets that reach the same card are the same or lie at least n apart. */
  lemma OffsetsApart(from: int, o: int, d: int, n: int)
    requires n > 0 && (from + o) % n == (from + d) % n
    ensures o == d || Abs(d - o) >= n
  {
    var a, b := (from + o) / n, (from + d) / n;
    assert d - o == (b - a) * n && o - d == (a - b) * n;
    if b > a {
      MultipleIsLarge(b - a, n);
    } else if a > b {
      MultipleIsLarge(a - b, n);
    }
  }

  /** A card's offset leads round the wheel from the selected card to it, and nothing shorter does. */
  lemma OffsetIsShortest(j: int, selected: int, n: int)
    requires 0 <= j < n && 0 <= selected < n
    ensures (selected + Offset(j, selected, n)) % n == j
    ensures forall d :: (selected + d) % n == j ==> Abs(Offset(j, selected, n)) <= Abs(d)
  {
    OffsetReachesCard(j, selected, n);
    forall d | (selected + d) % n == j ensures Abs(Offset(j, selected, n)) <= Abs(d) {
      OffsetsApart(selected, Offset(j, selected, n), d, n);
    }
  }

  /** A card exactly opposite stays on the side its index is on. */
  lemma OppositeKeepsSide(j: int, selected: int, n: int)
    requires n > 0 && (2 * (j - selected) == n || 2 * (selected - j) == n)
    ensures Offset(j, selected, n) == j - selected
  {
  }

  predicate Reaches(selected: int, d: int, j: int, n: int)
    requires n > 0
  {
    (selected + d) % n == j
  }

  /** A card is shown exactly if it can be reached in at most two steps, and then in the slot that says how. */
  lemma ShownExactlyIf(j: int, selected: int, n: int)
    requires 0 <= j < n && 0 <= selected < n
    ensures SlotFor(j, selected, n).Some? <==> exists d :: -2 <= d <= 2 && Reaches(selected, d, j, n)
    ensures SlotFor(j, selected, n).Some? ==> (selected + SlotFor(j, selected, n).value) % n == j
  {
    OffsetIsShortest(j, selected, n);
    assert Reaches(selected, Offset(j, selected, n), j, n);
    if d :| -2 <= d <= 2 && Reaches(selected, d, j, n) {
      assert Abs(Offset(j, selected, n)) <= Abs(d);
    }
  }

  /** No two cards are shown in the same slot. */
  lemma SlotsAreDistinct(j: int, k: int, selected: int, n: int)
    requires 0 <= j < n && 0 <= k < n && 0 <= selected < n
    requires SlotFor(j, selected, n).Some? && SlotFor(j, selected, n) == SlotFor(k, selected, n)
    ensures j == k
  {
    OffsetIsShortest(j, selected, n);
    OffsetIsShortest(k, selected, n);
  }
}
