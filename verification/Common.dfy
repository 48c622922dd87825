/** Vocabulary shared by the modules: optional values, error results and bytes. */
module Common {
  datatype Option<+T> = None | Some(value: T)

  /** A Rust `Result` whose error text is not modelled. */
  datatype Result<+T> = Ok(value: T) | Err

  type byte = b: int | 0 <= b < 256

  /** The number of values of a `u16`, a `u32` and a `u64`. */
  const U16: nat := 0x1_0000
  const U32: nat := 0x1_0000_0000
  const U64: nat := 0x1_0000_0000_0000_0000

  type Bytes = seq<byte>

  /** Big-endian 16 bits; larger numbers keep their low bits. */
  function Be16(n: nat): Bytes { [(n / 256) % 256, n % 256] }

  function FromBe16(hi: nat, lo: nat): nat { 256 * hi + lo }

  function Min(a: nat, b: nat): nat { if a < b then a else b }

  function Pow2(n: nat): nat { if n == 0 then 1 else 2 * Pow2(n - 1) }

  /** Quotient and remainder are what the division equation says they are. */
  lemma DivModIs(n: nat, d: nat, q: int, r: nat)
    requires r < d && n == q * d + r
    ensures n / d == q && n % d == r
  {
    var diff := n / d - q;
    assert n == (n / d) * d + n % d;
    assert diff * d == r - n % d;
    assert (diff >= 1 ==> diff * d >= d) && (diff <= -1 ==> diff * d <= 0 - d);
  }

  lemma {:induction false} PowersMultiply(a: nat, b: nat)
    ensures Pow2(a + b) == Pow2(a) * Pow2(b) && Pow2(a) >= a + 1
  {
    if a > 0 {
      PowersMultiply(a - 1, b);
      assert 2 * (Pow2(a - 1) * Pow2(b)) == (2 * Pow2(a - 1)) * Pow2(b);
    }
  }

  predicate Distinct<T(==)>(s: seq<T>) {
    forall i, j :: 0 <= i < j < |s| ==> s[i] != s[j]
  }
}

/** Trimming and decimal numerals as Rust writes them, on ASCII text. */
module Text {
  predicate IsSpace(c: char) { c == ' ' || '\t' <= c <= '\r' }

  function TrimStart(s: string): string { if s != "" && IsSpace(s[0]) then TrimStart(s[1..]) else s }

  function TrimEnd(s: string): string { if s != "" && IsSpace(s[|s| - 1]) then TrimEnd(s[..|s| - 1]) else s }

  function Trim(s: string): string { TrimEnd(TrimStart(s)) }

  function Digit(n: nat): char
    requires n < 10
  {
    '0' + n as char
  }

  function Decimal(n: nat): string { if n < 10 then [Digit(n)] else Decimal(n / 10) + [Digit(n % 10)] }
}
