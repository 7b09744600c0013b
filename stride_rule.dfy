/**
 * The per-IP stride rule shared, line for line, by the two stride
 * prefetchers (prefetcher/asp/asp.cc and prefetcher/asp_ptempo/asp_ptempo.cc):
 * the table entry of an instruction pointer remembers the last page it
 * touched, the last stride between its pages and a confidence state that
 * counts repeated strides up to 2.
 *
 * In `initiate_lookahead` the locals `stride` and `state` are `uint64_t`
 * while the entry fields are `int64_t`; each `uint64_t` value is the image
 * of the `int64_t` one, so the comparisons agree (`Word.SignedCompare`) and
 * the model keeps the `int64_t` values.
 */
module StrideRule {
  import opened Word
  import opened Champsim

  const ASP_SETS: nat := 64
  const ASP_WAYS: nat := 4

  /** `asp_entry`, tagged by `ip`. */
  datatype AspEntry = AspEntry(ip: u64, vpn: u64, stride: i64, state: i64)

  function Min(a: int, b: int): int
  {
    if a <= b then a else b
  }

  /**
   * The entry `initiate_lookahead(ip, vpn)` stores, given what `check_hit`
   * found: a new IP starts with stride 0 and state 0; otherwise the stride
   * is the signed page difference to the stored page, and the state climbs
   * by one (saturating at 2) when that stride is non-zero and repeats the
   * stored one, and falls back to 0 otherwise.
   */
  function Next(found: Option<AspEntry>, ip: u64, vpn: u64): (e: AspEntry)
    ensures e.ip == ip && e.vpn == vpn
    ensures found.None? ==> e.stride == 0 && e.state == 0
    ensures found.Some? ==> Wrap64(e.stride) == Wrap64(vpn - found.value.vpn)
    ensures found.Some? && 0 <= found.value.state <= 2 ==>
              e.state == (if e.stride != 0 && e.stride == found.value.stride then Min(found.value.state + 1, 2) else 0)
    ensures (found.Some? ==> 0 <= found.value.state <= 2) ==> 0 <= e.state <= 2
  {
    match found
    case None => AspEntry(ip, vpn, 0, 0)
    case Some(f) =>
      var stride := AsSigned(AsSigned(vpn) - AsSigned(f.vpn));
      SignedDifference(vpn, f.vpn);
      var state := if stride != 0 && stride == f.stride then (if f.state < 2 then f.state + 1 else f.state) else 0;
      AspEntry(ip, vpn, stride, state)
  }

  /** The `int64_t` difference of two `uint64_t` values is their difference modulo 2^64. */
  lemma SignedDifference(a: u64, b: u64)
    ensures Wrap64(AsSigned(AsSigned(a) - AsSigned(b))) == Wrap64(a - b)
  {
    var d := AsSigned(a) - AsSigned(b);
    var k := (if a < TWO_63 then 0 else 1) - (if b < TWO_63 then 0 else 1);
    assert d == (a - b) - k * TWO_64;
    var w := Wrap64(a - b);
    assert a - b == ((a - b) / TWO_64) * TWO_64 + w;
    WrapUnique(d, (a - b) / TWO_64 - k, w);
  }

  /** When two pages lie `s` apart, the stride measured between them is `s`. */
  lemma StrideBetween(a: u64, b: u64, s: i64)
    requires a - b == s
    ensures AsSigned(AsSigned(a) - AsSigned(b)) == s
  {
    SignedDifference(a, b);
    SignedCompare(AsSigned(AsSigned(a) - AsSigned(b)), s);
  }

  /**
   * One IP touching pages `v`, `v+s`, `v+2s`, `v+3s` (`s` non-zero, entry
   * retained): the states are 0, 0, 1, 2 and, from the second access on,
   * the stride is `s`.
   */
  lemma ConstantStrideTrain(ip: u64, v: u64, s: i64)
    requires s != 0 && 0 <= v + 3 * s < TWO_64
    ensures var e1 := Next(None, ip, v);
      var e2 := Next(Some(e1), ip, v + s);
      var e3 := Next(Some(e2), ip, v + 2 * s);
      var e4 := Next(Some(e3), ip, v + 3 * s);
      && e1.state == 0 && e2.state == 0 && e3.state == 1 && e4.state == 2
      && e2.stride == s && e3.stride == s && e4.stride == s
  {
    var e1 := Next(None, ip, v);
    var e2 := Next(Some(e1), ip, v + s);
    RepeatedStride(e1, ip, v + s, s);
    var e3 := Next(Some(e2), ip, v + 2 * s);
    RepeatedStride(e2, ip, v + 2 * s, s);
    var e4 := Next(Some(e3), ip, v + 3 * s);
    RepeatedStride(e3, ip, v + 3 * s, s);
  }

  /** An access `s` pages after the stored one measures stride `s`. */
  lemma RepeatedStride(f: AspEntry, ip: u64, vpn: u64, s: i64)
    requires vpn - f.vpn == s
    ensures Next(Some(f), ip, vpn).stride == s
  {
    StrideBetween(vpn, f.vpn, s);
  }

  /** Every entry is stored under its own IP and its state lies in {0, 1, 2}. */
  ghost predicate WellFormed(table: map<u64, AspEntry>)
  {
    forall k :: k in table ==> table[k].ip == k && 0 <= table[k].state <= 2
  }

  /** Storing the entry `Next` computes keeps the table well formed. */
  lemma NextKeepsWellFormed(table: map<u64, AspEntry>, ip: u64, vpn: u64)
    requires WellFormed(table)
    ensures WellFormed(table[ip := Next(CheckHit(table, ip), ip, vpn)])
  {
  }
}
