/** Numbers written in digits, without reference to any code that reads or writes them. */
module Numerals {
  import opened Basics

  /** The hexadecimal digit of value `d`, in either case. */
  predicate HexForm(c: char, d: nat) {
    d < 16 && (c == "0123456789abcdef"[d] || c == "0123456789ABCDEF"[d])
  }

  predicate DecForm(c: char, d: nat) {
    d < 10 && c == "0123456789"[d]
  }

  predicate HexNumber(t: string, v: nat) {
    if t == "" then v == 0 else HexForm(t[|t| - 1], v % 16) && HexNumber(t[..|t| - 1], v / 16)
  }

  predicate DecNumber(t: string, v: nat) {
    if t == "" then v == 0 else DecForm(t[|t| - 1], v % 10) && DecNumber(t[..|t| - 1], v / 10)
  }

  // ---- Lengths and leading zeros

  lemma HexGrows(t: string, v: nat, c: char, d: nat)
    requires HexNumber(t, v) && HexForm(c, d)
    ensures HexNumber(t + [c], v * 16 + d)
  {
    hide HexForm;
    assert d < 16 by { HexFormSmall(c, d); }
    assert (v * 16 + d) / 16 == v && (v * 16 + d) % 16 == d;
    assert (t + [c])[..|t|] == t;
  }

  lemma HexFormSmall(c: char, d: nat)
    requires HexForm(c, d)
    ensures d < 16
  {
  }

  lemma DecGrows(t: string, v: nat, c: char, d: nat)
    requires DecNumber(t, v) && DecForm(c, d)
    ensures DecNumber(t + [c], v * 10 + d)
  {
    assert (t + [c])[..|t|] == t;
  }

  lemma {:induction false} HexBound(t: string, v: nat, p: nat)
    requires HexNumber(t, v) && |t| <= p <= 4
    ensures v < if p == 0 then 1 else if p == 1 then 0x10 else if p == 2 then 0x100
                else if p == 3 then 0x1000 else 0x1_0000
  {
    if t != "" {
      HexBound(t[..|t| - 1], v / 16, p - 1);
    }
  }

  /** Without a leading zero a number has its size. */
  lemma {:induction false} DecBound(t: string, v: nat)
    requires DecNumber(t, v) && t != "" && t[0] != '0'
    ensures v >= 1 && (|t| >= 2 ==> v >= 10) && (|t| >= 3 ==> v >= 100) && (|t| >= 4 ==> v >= 1000)
  {
    if |t| > 1 {
      DecBound(t[..|t| - 1], v / 10);
    }
  }

  /** What `%u` prints: the number without leading zeros. */
  lemma {:induction false} DigitsForm(n: nat)
    ensures DecNumber(Digits(n), n) && (Digits(n)[0] == '0' ==> n == 0 && Digits(n) == "0")
  {
    if n >= 10 {
      DigitsForm(n / 10);
      DecGrows(Digits(n / 10), n / 10, Digit(n % 10), n % 10);
    } else {
      DecGrows("", 0, Digit(n), n);
      assert "" + [Digit(n)] == Digits(n);
    }
  }
}
