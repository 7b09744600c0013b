/**
 * Machine integers as the prefetchers use them: `uint64_t` addresses and
 * page numbers, `int64_t` strides and distances, `uint32_t` metadata.
 * Values are mathematical integers restricted to their range; every C++
 * conversion into `uint64_t` is reduction modulo 2^64 (`Wrap64`) and every
 * conversion into `int64_t` is the two's complement reading of that
 * (`AsSigned`).
 */
module Word {

  const TWO_64: int := 0x1_0000_0000_0000_0000
  const TWO_63: int := 0x8000_0000_0000_0000

  type u64 = x: int | 0 <= x < 0x1_0000_0000_0000_0000
  type i64 = x: int | -0x8000_0000_0000_0000 <= x < 0x8000_0000_0000_0000
  type u32 = x: int | 0 <= x < 0x1_0000_0000

  /** Conversion of an integer value to `uint64_t`. */
  function Wrap64(x: int): (r: u64)
  {
    x % TWO_64
  }

  /** The conversion keeps the residue: `x` and `Wrap64(x)` differ by a multiple of 2^64. */
  lemma WrapResidue(x: int)
    ensures x == (x / TWO_64) * TWO_64 + Wrap64(x)
  {
  }

  /** Conversion of an integer value to `int64_t` (two's complement). */
  function AsSigned(x: int): (r: i64)
    ensures Wrap64(r) == Wrap64(x)
  {
    var w := Wrap64(x);
    if w < TWO_63 then w else w - TWO_64
  }

  /** Reduction modulo 2^64 only depends on the residue of its argument. */
  lemma WrapUnique(x: int, q: int, y: int)
    requires x == q * TWO_64 + y && 0 <= y < TWO_64
    ensures Wrap64(x) == y
  {
  }

  /** `uint64_t` addition: wrapping one operand first changes nothing. */
  lemma WrapAddWrapped(a: int, b: int)
    ensures Wrap64(a + Wrap64(b)) == Wrap64(a + b)
  {
    var w := Wrap64(b);
    assert b == (b / TWO_64) * TWO_64 + w;
    WrapUnique(a + b, (a + w) / TWO_64 + b / TWO_64, Wrap64(a + w));
  }

  /** A value already in range is its own `uint64_t` conversion. */
  lemma WrapInRange(x: int)
    requires 0 <= x < TWO_64
    ensures Wrap64(x) == x
  {
  }

  /** An `int64_t` survives the round trip through `uint64_t`. */
  lemma SignedRoundTrip(s: i64)
    ensures AsSigned(Wrap64(s)) == s
  {
    if s < 0 {
      WrapUnique(s, -1, s + TWO_64);
    }
  }

  /** Converting an `int64_t` value to `int64_t` changes nothing. */
  lemma SignedIdentity(s: i64)
    ensures AsSigned(s) == s
  {
    SignedRoundTrip(s);
  }

  /** Two `int64_t` values agree exactly when their `uint64_t` images agree. */
  lemma SignedCompare(s: i64, t: i64)
    ensures Wrap64(s) == Wrap64(t) <==> s == t
  {
    SignedRoundTrip(s);
    SignedRoundTrip(t);
  }
}
