/** The hexadecimal words of call data: printing, padding, and reading back. */
module AbiWords {
  import opened Wrappers

  const WORD := 64

  function Pow(b: nat, n: nat): nat {
    if n == 0 then 1 else b * Pow(b, n - 1)
  }

  /** 2 to the 256: the numbers an ABI word can hold are those below it. */
  const UINT_BOUND: nat := 0x1_00000000_00000000_00000000_00000000_00000000_00000000_00000000_00000000

  function HexDigit(d: nat): char
    requires d < 16
  {
    "0123456789abcdef"[d]
  }

  function DigitValue(c: char): Option<nat> {
    if '0' <= c <= '9' then Some((c - '0') as nat)
    else if 'a' <= c <= 'f' then Some((c - 'a') as nat + 10)
    else if 'A' <= c <= 'F' then Some((c - 'A') as nat + 10)
    else None
  }

  /** BigInt.prototype.toString(16) of a non-negative number: no leading zeros, lower case. */
  function ToHex(n: nat): string {
    if n < 16 then [HexDigit(n)] else ToHex(n / 16) + [HexDigit(n % 16)]
  }

  /** BigInt("0x" + s), which refuses the empty string and anything that is not a hex digit. */
  function ParseHex(s: string): Option<nat> {
    if s == "" then None
    else
      var last := DigitValue(s[|s| - 1]);
      if last.None? then None
      else if |s| == 1 then last
      else
        match ParseHex(s[..|s| - 1])
        case None => None
        case Some(n) => Some(n * 16 + last.value)
  }

  function Zeros(n: nat): string {
    seq(n, i => '0')
  }

  function PadStart(s: string, width: nat): string {
    if |s| >= width then s else Zeros(width - |s|) + s
  }

  /** slice(from, to), which clamps at the end of the string. */
  function Slice(s: string, from: nat, to: nat): string
    requires from <= to
  {
    if to <= |s| then s[from..to] else if from <= |s| then s[from..] else ""
  }

  function LowerChar(c: char): char {
    if 'A' <= c <= 'Z' then c - 'A' + 'a' else c
  }

  function Lower(s: string): string {
    seq(|s|, i requires 0 <= i < |s| => LowerChar(s[i]))
  }

  predicate IsHexAddress(a: string) {
    |a| == 42 && a[..2] == "0x" && forall i :: 2 <= i < 42 ==> DigitValue(a[i]).Some?
  }

  function PadAddr(a: string): string {
    PadStart(Lower(if |a| >= 2 then a[2..] else ""), WORD)
  }

  /** The sign is printed in front of the digits, so a negative number gives no proper word. */
  function PadUint(n: int): string {
    PadStart(if n >= 0 then ToHex(n) else "-" + ToHex(-n), WORD)
  }

  function Word(hex: string, i: nat): Option<nat> {
    ParseHex(Slice(hex, 2 + i * WORD, 2 + (i + 1) * WORD))
  }

  function AddrWord(hex: string, i: nat): string {
    "0x" + Slice(hex, 2 + i * WORD + 24, 2 + (i + 1) * WORD)
  }

  // ----- printing and parsing undo each other -----

  lemma {:induction false} ParseToHex(n: nat)
    ensures ParseHex(ToHex(n)) == Some(n)
  {
    if n >= 16 {
      ParseToHex(n / 16);
      ParseOneMore(ToHex(n / 16), n / 16, n % 16);
    }
  }

  lemma {:induction false} ParseOneMore(s: string, n: nat, d: nat)
    requires ParseHex(s) == Some(n) && d < 16
    ensures ParseHex(s + [HexDigit(d)]) == Some(n * 16 + d)
  {
    assert (s + [HexDigit(d)])[..|s|] == s;
    DigitReadsBack(d);
  }

  lemma DigitReadsBack(d: nat)
    requires d < 16
    ensures DigitValue(HexDigit(d)) == Some(d)
  {
  }

  lemma {:induction false} ParseZeros(k: nat)
    requires k > 0
    ensures ParseHex(Zeros(k)) == Some(0)
  {
    if k > 1 {
      ParseZeros(k - 1);
      assert Zeros(k)[..k - 1] == Zeros(k - 1);
    }
  }

  /** Leading zeros do not change the value read. */
  lemma {:induction false} ParsePadded(k: nat, s: string)
    requires ParseHex(s).Some?
    ensures ParseHex(Zeros(k) + s) == ParseHex(s)
  {
    var t := Zeros(k) + s;
    if |s| == 1 {
      if k > 0 {
        assert t[..|t| - 1] == Zeros(k);
        ParseZeros(k);
      } else {
        assert t == s;
      }
    } else {
      ParsePadded(k, s[..|s| - 1]);
      assert t[..|t| - 1] == Zeros(k) + s[..|s| - 1];
    }
  }

  /** A number fits into k digits exactly if it is below 16 to the k. */
  lemma {:induction false} HexLength(n: nat, k: nat)
    requires k > 0
    ensures |ToHex(n)| <= k <==> n < Pow(16, k)
  {
    if k == 1 {
      assert Pow(16, 1) == 16;
      if n >= 16 {
        assert |ToHex(n / 16)| >= 1;
      }
    } else {
      assert Pow(16, k) == 16 * Pow(16, k - 1);
      PowPositive(16, k - 1);
      if n >= 16 {
        HexLength(n / 16, k - 1);
      }
    }
  }

  lemma {:induction false} PowAdd(b: nat, m: nat, n: nat)
    ensures Pow(b, m + n) == Pow(b, m) * Pow(b, n)
  {
    if m > 0 {
      PowAdd(b, m - 1, n);
      assert b * (Pow(b, m - 1) * Pow(b, n)) == (b * Pow(b, m - 1)) * Pow(b, n);
    }
  }

  /** A word of hex digits holds exactly the 256-bit numbers. */
  lemma {:induction false} WordBound(word: nat)
    requires word == WORD
    ensures Pow(16, word) == UINT_BOUND
  {
    var eight := word / 8;
    PowAdd(16, eight, eight);
    PowAdd(16, 2 * eight, 2 * eight);
    PowAdd(16, 4 * eight, 4 * eight);
    PowEight(eight);
  }

  lemma {:induction false} PowEight(n: nat)
    requires n == 8
    ensures Pow(16, n) == 0x1_0000_0000
  {
    assert Pow(16, n - 7) == 16 && Pow(16, n - 6) == 0x100 && Pow(16, n - 5) == 0x1000;
    assert Pow(16, n - 4) == 0x1_0000 && Pow(16, n - 3) == 0x10_0000 && Pow(16, n - 2) == 0x100_0000;
    assert Pow(16, n - 1) == 0x1000_0000;
  }

  lemma {:induction false} PowPositive(b: nat, n: nat)
    requires b > 0
    ensures Pow(b, n) >= 1
  {
    if n > 0 {
      PowPositive(b, n - 1);
    }
  }

  /** A padded number is one word wide exactly if it is a 256-bit number, and reads back as itself. */
  lemma PadUintWord(n: nat)
    ensures |PadUint(n)| == WORD <==> n < UINT_BOUND
    ensures ParseHex(PadUint(n)) == Some(n)
  {
    WordBound(WORD);
    HexLength(n, WORD);
    ParseToHex(n);
    if |ToHex(n)| < WORD {
      ParsePadded(WORD - |ToHex(n)|, ToHex(n));
    }
  }

  lemma PadAddrWord(a: string)
    requires IsHexAddress(a)
    ensures |PadAddr(a)| == WORD && "0x" + PadAddr(a)[24..] == Lower(a)
  {
    assert Lower(a) == Lower(a[..2]) + Lower(a[2..]);
    assert Lower("0x") == "0x";
  }

  // ----- letter case -----

  /** Two characters look alike to a comparison in lower case exactly if they are the same, or the same
      letter in two cases. */
  lemma CaseExactly(c: char, d: char)
    ensures LowerChar(c) == LowerChar(d) <==>
            c == d || ('A' <= c <= 'Z' && d as int == c as int + 32) || ('A' <= d <= 'Z' && c as int == d as int + 32)
  {
  }

  lemma SameInLowerCase(a: string, b: string)
    ensures Lower(a) == Lower(b) <==> |a| == |b| && forall i :: 0 <= i < |a| ==> LowerChar(a[i]) == LowerChar(b[i])
  {
    if |a| == |b| && forall i :: 0 <= i < |a| ==> LowerChar(a[i]) == LowerChar(b[i]) {
      assert Lower(a) == Lower(b);
    } else if |a| == |b| {
      var i :| 0 <= i < |a| && LowerChar(a[i]) != LowerChar(b[i]);
      assert Lower(a)[i] != Lower(b)[i];
    } else {
      assert |Lower(a)| != |Lower(b)|;
    }
  }

  lemma LowerTwice(s: string)
    ensures Lower(Lower(s)) == Lower(s)
  {
    assert forall i :: 0 <= i < |s| ==> LowerChar(LowerChar(s[i])) == LowerChar(s[i]);
  }

  /** Hex digits read the same in either case. */
  lemma {:induction false} ParseLower(s: string)
    ensures ParseHex(Lower(s)) == ParseHex(s)
  {
    if |s| == 1 {
      assert Lower(s)[0] == LowerChar(s[0]);
    } else if s != "" {
      assert Lower(s)[..|s| - 1] == Lower(s[..|s| - 1]);
      ParseLower(s[..|s| - 1]);
    }
  }

  /** Numbers print in lower case. */
  lemma {:induction false} LowerHex(n: nat)
    ensures Lower(ToHex(n)) == ToHex(n)
  {
    if n >= 16 {
      LowerHex(n / 16);
      assert LowerChar(HexDigit(n % 16)) == HexDigit(n % 16);
      assert Lower(ToHex(n / 16) + [HexDigit(n % 16)]) == Lower(ToHex(n / 16)) + [HexDigit(n % 16)];
    } else {
      assert LowerChar(HexDigit(n)) == HexDigit(n);
    }
  }
}
