// Numbers as text, decimal or lower-case hexadecimal.
module Digits {
  datatype Base = Ten | Sixteen {
    function Size(): nat {
      if Ten? then 10 else 16
    }

    function Scale(n: nat): nat {
      if Ten? then 10 * n else 16 * n
    }

    function Quotient(n: nat): (q: nat)
      ensures n >= Size() ==> q < n
    {
      if Ten? then n / 10 else n / 16
    }

    function Remainder(n: nat): (r: nat)
      ensures r < Size() && Scale(Quotient(n)) + r == n
    {
      if Ten? then n % 10 else n % 16
    }
  }

  const DIGITS: string := "0123456789abcdef"

  function Digit(d: nat): (c: char)
    requires d < 16
    ensures DigitValue(c) == d
  {
    DIGITS[d]
  }

  function DigitValue(c: char): nat {
    if '0' <= c <= '9' then c as int - '0' as int
    else if 'a' <= c <= 'f' then 10 + (c as int - 'a' as int)
    else 16
  }

  predicate IsDigit(c: char, base: Base) {
    DigitValue(c) < base.Size()
  }

  predicate AllDigits(s: string, base: Base) {
    forall c :: c in s ==> IsDigit(c, base)
  }

  function Print(n: nat, base: Base): (s: string)
    ensures s != [] && AllDigits(s, base)
    decreases n
  {
    if n < base.Size() then [Digit(n)]
    else Print(base.Quotient(n), base) + [Digit(base.Remainder(n))]
  }

  function Read(s: string, base: Base): nat {
    if s == [] then 0
    else base.Scale(Read(s[..|s| - 1], base)) + DigitValue(s[|s| - 1])
  }

  lemma ReadSplitsLast(s: string, d: nat, base: Base)
    requires d < 16
    ensures Read(s + [Digit(d)], base) == base.Scale(Read(s, base)) + d
  {
    assert (s + [Digit(d)])[..|s|] == s;
  }

  lemma DigitReadsBack(d: nat, base: Base)
    requires d < base.Size()
    ensures Read([Digit(d)], base) == d
  {
    assert [Digit(d)][..0] == [];
  }

  // A printed number reads back.
  lemma {:induction false} PrintReadsBack(n: nat, base: Base)
    ensures Read(Print(n, base), base) == n
    decreases n
  {
    if n < base.Size() {
      DigitReadsBack(n, base);
    } else {
      var q, r := base.Quotient(n), base.Remainder(n);
      PrintReadsBack(q, base);
      ReadSplitsLast(Print(q, base), r, base);
      assert base.Scale(q) + r == n;
    }
  }
}
