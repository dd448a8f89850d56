/** Small types and arithmetic shared by the models. */
module Common {

  datatype Option<+T> = None | Some(value: T)

  predicate Distinct<T(==)>(s: seq<T>) { forall i, j | 0 <= i < j < |s| :: s[i] != s[j] }

  function Max(a: int, b: int): int { if a >= b then a else b }

  function Min(a: int, b: int): int { if a <= b then a else b }

  /** Go's conversion int32(x): keep the low 32 bits, read as two's complement. */
  function Int32(x: int): int { (x + 0x8000_0000) % 0x1_0000_0000 - 0x8000_0000 }

  /** Go's int64 arithmetic: a result is reduced to 64 bits, read as two's complement. */
  function Int64(x: int): int {
    (x + 0x8000_0000_0000_0000) % 0x1_0000_0000_0000_0000 - 0x8000_0000_0000_0000
  }

  /** Both conversions land in range and change the number by whole multiples of their modulus. */
  lemma ConversionsWrap(x: int)
    ensures FitsInt32(Int32(x)) && (Int32(x) - x) % 0x1_0000_0000 == 0
    ensures -0x8000_0000_0000_0000 <= Int64(x) < 0x8000_0000_0000_0000 && (Int64(x) - x) % 0x1_0000_0000_0000_0000 == 0
  {
    assert Int32(x) - x == -0x1_0000_0000 * ((x + 0x8000_0000) / 0x1_0000_0000);
    assert Int64(x) - x == -0x1_0000_0000_0000_0000 * ((x + 0x8000_0000_0000_0000) / 0x1_0000_0000_0000_0000);
  }

  predicate FitsInt32(x: int) { -0x8000_0000 <= x < 0x8000_0000 }

  lemma Int32Exact(x: int)
    ensures Int32(x) == x <==> FitsInt32(x)
  {
  }

  /** The text that fmt's %d prints. */
  function Decimal(n: int): string
    decreases if n < 0 then 1 - n else n
  {
    if n < 0 then "-" + Decimal(-n)
    else if n < 10 then [('0' as int + n) as char]
    else Decimal(n / 10) + [('0' as int + n % 10) as char]
  }

  predicate IsDigit(c: char) { '0' <= c <= '9' }

  /** The number that a string of digits denotes. */
  function Value(s: string): int {
    if s == "" then 0 else Value(s[..|s| - 1]) * 10 + (s[|s| - 1] as int - '0' as int)
  }

  lemma {:induction false} DecimalOfNat(n: nat)
    ensures Decimal(n) != "" && forall c | c in Decimal(n) :: IsDigit(c)
    ensures Value(Decimal(n)) == n && (n > 0 ==> Decimal(n)[0] != '0') && (n == 0 ==> |Decimal(n)| == 1)
    decreases n
  {
    if n >= 10 {
      DecimalOfNat(n / 10);
      assert Decimal(n)[..|Decimal(n)| - 1] == Decimal(n / 10);
    } else {
      assert Value("") == 0;
      assert Decimal(n)[..0] == "";
    }
  }

  /** The text consists of digits, but for a leading sign. */
  lemma DecimalChars(n: int)
    ensures Decimal(n) != "" && forall c | c in Decimal(n) :: IsDigit(c) || c == '-'
    ensures Decimal(n)[0] == '-' <==> n < 0
  {
    if n < 0 {
      DecimalOfNat(-n);
    } else {
      DecimalOfNat(n);
      assert Decimal(n)[0] in Decimal(n);
    }
  }

  lemma SignedValue(n: int)
    ensures n >= 0 ==> Value(Decimal(n)) == n
    ensures n < 0 ==> Value(Decimal(n)[1..]) == -n
  {
    if n >= 0 {
      DecimalOfNat(n);
    } else {
      DecimalOfNat(-n);
      assert Decimal(n)[1..] == Decimal(-n);
    }
  }

  lemma DecimalInjective(a: int, b: int)
    requires Decimal(a) == Decimal(b)
    ensures a == b
  {
    DecimalChars(a);
    DecimalChars(b);
    SignedValue(a);
    SignedValue(b);
  }
}
