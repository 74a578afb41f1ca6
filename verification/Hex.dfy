/** Printing a 32-bit number in hexadecimal. */
module Hex {
  import opened Numbers

  /** The character code of a digit: 0 to 9, then A to F. */
  function Digit(d: nat): nat {
    if d + 48 >= 58 then d + 55 else d + 48
  }

  /** The last k digits of n. */
  function Digits(n: nat, k: nat): (s: seq<nat>)
    ensures |s| == k
  {
    if k == 0 then [] else Digits(n / 16, k - 1) + [Digit(n % 16)]
  }

  /** Reading a numeral, the other way round and by the meaning of the codes. */
  predicate IsHex(s: seq<nat>) {
    forall i :: 0 <= i < |s| ==> 48 <= s[i] <= 57 || 65 <= s[i] <= 70
  }

  function ValueOf(c: nat): (d: nat)
    requires 48 <= c <= 57 || 65 <= c <= 70
    ensures d < 16
  {
    if c <= 57 then c - 48 else c - 65 + 10
  }

  function Parse(s: seq<nat>): nat
    requires IsHex(s)
  {
    if s == [] then 0 else Parse(s[..|s| - 1]) * 16 + ValueOf(s[|s| - 1])
  }

  function Pow16(k: nat): nat {
    if k == 0 then 1 else 16 * Pow16(k - 1)
  }

  lemma DigitBack(c: nat, d: nat)
    requires d < 16
    ensures c == Digit(d) <==> (48 <= c <= 57 || 65 <= c <= 70) && ValueOf(c) == d
  {
  }

  /** The numeral of k digits reads as n. */
  lemma {:induction false} DigitsRead(n: nat, k: nat)
    requires n < Pow16(k)
    ensures IsHex(Digits(n, k)) && Parse(Digits(n, k)) == n
  {
    if k > 0 {
      var front := Digits(n / 16, k - 1);
      DigitsRead(n / 16, k - 1);
      DigitBack(Digit(n % 16), n % 16);
      assert Digits(n, k)[..k - 1] == front;
    }
  }

  /** No other numeral of that length does, and none that is too short can. */
  lemma {:induction false} OnlyDigits(s: seq<nat>)
    requires IsHex(s)
    ensures Parse(s) < Pow16(|s|) && s == Digits(Parse(s), |s|)
  {
    if s != [] {
      var front, last := s[..|s| - 1], s[|s| - 1];
      OnlyDigits(front);
      DigitBack(last, ValueOf(last));
      assert s == front + [last];
    }
  }

  lemma Pow8()
    ensures Pow16(8) == UINT32
  {
    assert Pow16(4) == 65536;
  }

  /** itoa_hex fills the buffer from its end. */
  method ItoaHex(qbuf: array<nat>, n: Uint32)
    requires qbuf.Length == 9
    modifies qbuf
    ensures qbuf[..8] == Digits(n, 8) && qbuf[8] == 0
    ensures IsHex(qbuf[..8]) && Parse(qbuf[..8]) == n
  {
    Fill(qbuf, n);
    qbuf[8] := 0;
    Pow8();
    DigitsRead(n, 8);
  }

  /** The digit loop. */
  method Fill(qbuf: array<nat>, n: nat)
    requires qbuf.Length == 9
    modifies qbuf
    ensures qbuf[..8] == Digits(n, 8)
  {
    var i, rest := 8, n;
    while i > 0
      invariant 0 <= i <= 8
      invariant Digits(n, 8) == Digits(rest, i) + qbuf[i..8]
    {
      i := i - 1;
      qbuf[i] := rest % 16 + 48;
      if qbuf[i] >= 58 {
        qbuf[i] := qbuf[i] + 7;
      }
      assert qbuf[i..8] == [Digit(rest % 16)] + qbuf[i + 1..8];
      rest := rest / 16;
    }
  }

  /** The text from the first digit that counts; a lone zero stays. */
  ghost predicate NoZeroAhead(s: seq<nat>) {
    s != [] && (|s| > 1 ==> s[0] != 48)
  }

  lemma {:induction false} ZerosDrop(s: seq<nat>, i: nat)
    requires IsHex(s) && i <= |s| && forall j :: 0 <= j < i ==> s[j] == 48
    ensures IsHex(s[i..]) && Parse(s[i..]) == Parse(s)
    decreases |s|
  {
    if i < |s| {
      var front := s[..|s| - 1];
      ZerosDrop(front, i);
      assert front[i..] == s[i..][..|s| - 1 - i];
    } else if s != [] {
      ZerosDrop(s[..|s| - 1], i - 1);
    }
  }

  /** A numeral without zeros ahead is the only one as short, and nothing shorter but the empty text
      for zero reads the same. */
  lemma ShortestAndOnly(s: seq<nat>, t: seq<nat>)
    requires IsHex(s) && IsHex(t) && NoZeroAhead(s) && t != [] && Parse(s) == Parse(t)
    ensures |s| <= |t| && (|s| == |t| ==> s == t)
  {
    OnlyDigits(s);
    OnlyDigits(t);
    if |s| > 1 {
      LeadingCounts(s);
      if |t| < |s| { Pow16Grows(|t|, |s| - 1); }
    }
  }

  lemma {:induction false} Pow16Grows(a: nat, b: nat)
    requires a <= b
    ensures Pow16(a) <= Pow16(b)
  {
    if a < b { Pow16Grows(a, b - 1); }
  }

  lemma {:induction false} LeadingCounts(s: seq<nat>)
    requires IsHex(s) && s != [] && s[0] != 48
    ensures Parse(s) >= Pow16(|s| - 1)
  {
    if |s| > 1 { LeadingCounts(s[..|s| - 1]); }
  }

  /** itoa_hex_removing_ldz: the rest of the buffer from the returned place is the numeral of n without
      zeros ahead; by ShortestAndOnly it is the shortest one. */
  method ItoaHexRemovingLdz(qbuf: array<nat>, n: Uint32) returns (i: nat)
    requires qbuf.Length == 9
    modifies qbuf
    ensures i < 8 && qbuf[8] == 0 && NoZeroAhead(qbuf[i..8])
    ensures IsHex(qbuf[i..8]) && Parse(qbuf[i..8]) == n
    ensures forall t: seq<nat> :: t != [] && IsHex(t) && Parse(t) == n ==> 8 - i < |t| || t == qbuf[i..8]
  {
    ItoaHex(qbuf, n);
    i := 0;
    while i < 7 && qbuf[i] == 48
      invariant i <= 7 && forall j :: 0 <= j < i ==> qbuf[j] == 48
    {
      i := i + 1;
    }
    ZerosDrop(qbuf[..8], i);
    assert qbuf[..8][i..] == qbuf[i..8];
    forall t: seq<nat> | t != [] && IsHex(t) && Parse(t) == n ensures 8 - i < |t| || t == qbuf[i..8] {
      ShortestAndOnly(qbuf[i..8], t);
    }
  }
}
