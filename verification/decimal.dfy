/** Decimal rendering of natural numbers (Python's `"%d"` / `str()` on a
    non-negative int) and its inverse. */
module Decimal {

  predicate IsDigit(c: char) {
    '0' <= c <= '9'
  }

  predicate AllDigits(s: string) {
    forall i :: 0 <= i < |s| ==> IsDigit(s[i])
  }

  /** A numeral as `"%d"` writes it: digits only, and no leading zero
      unless the number is zero. */
  predicate Canonical(s: string) {
    |s| > 0 && AllDigits(s) && (|s| > 1 ==> s[0] != '0')
  }

  function DigitChar(d: nat): (c: char)
    requires d < 10
    ensures IsDigit(c)
    ensures DigitValue(c) == d
  {
    "0123456789"[d]
  }

  function DigitValue(c: char): nat
    requires IsDigit(c)
  {
    (c as int - '0' as int) as nat
  }

  /** The shortest decimal numeral of `n`, most significant digit first. */
  function Show(n: nat): (s: string)
    ensures Canonical(s)
    decreases n
  {
    if n < 10 then [DigitChar(n)] else Show(n / 10) + [DigitChar(n % 10)]
  }

  /** Reads a string of digits as a number (the empty string reads as 0). */
  function Read(s: string): nat
    requires AllDigits(s)
    decreases |s|
  {
    if |s| == 0 then 0 else 10 * Read(s[..|s| - 1]) + DigitValue(s[|s| - 1])
  }

  /** Reading back a rendered number gives the number. */
  lemma {:induction false} ReadShow(n: nat)
    ensures Read(Show(n)) == n
    decreases n
  {
    if n >= 10 {
      var s := Show(n);
      assert s[..|s| - 1] == Show(n / 10);
      ReadShow(n / 10);
    }
  }

  lemma CharOfValue(c: char)
    requires IsDigit(c)
    ensures DigitChar(DigitValue(c)) == c
  {
  }

  /** Only a string of zeros reads as 0. */
  lemma {:induction false} ReadZero(s: string)
    requires AllDigits(s) && Read(s) == 0
    ensures forall i :: 0 <= i < |s| ==> s[i] == '0'
    decreases |s|
  {
    if |s| > 0 {
      ReadZero(s[..|s| - 1]);
      assert forall i :: 0 <= i < |s| - 1 ==> s[i] == s[..|s| - 1][i];
    }
  }

  /** A canonical numeral is the rendering of the number it reads as, so
      `Show` is the only way to write a number canonically. */
  lemma {:induction false} ShowRead(s: string)
    requires Canonical(s)
    ensures Show(Read(s)) == s
    decreases |s|
  {
    var c := s[|s| - 1];
    CharOfValue(c);
    if |s| > 1 {
      var t := s[..|s| - 1];
      assert t[0] == s[0];
      if Read(t) == 0 {
        ReadZero(t);
        assert false;
      }
      ShowRead(t);
      var n := Read(s);
      assert n == 10 * Read(t) + DigitValue(c);
      DivMod(Read(t), DigitValue(c));
      assert Show(n) == Show(Read(t)) + [DigitChar(DigitValue(c))];
      assert s == t + [c];
    }
  }

  lemma DivMod(q: nat, d: nat)
    requires d < 10
    ensures (10 * q + d) / 10 == q && (10 * q + d) % 10 == d
  {
  }
}
