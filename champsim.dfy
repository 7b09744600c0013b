/**
 * What the prefetcher plug-ins take from the simulator around them: the
 * block and page geometry, the request a plug-in hands to
 * `CACHE::prefetch_line`, and the keyed store `champsim::msl::lru_table`.
 *
 * The geometry is the simulator's default: 64-byte blocks, 4 KiB pages.
 * A call `prefetch_line(addr, fill_this_level, metadata)` is recorded as a
 * `Request`; a plug-in's effect on the cache is the sequence of requests it
 * issues, in order.
 */
module Champsim {
  import opened Word

  const LOG2_BLOCK_SIZE: nat := 6
  const BLOCK_SIZE: nat := 64
  const LOG2_PAGE_SIZE: nat := 12
  const PAGE_SIZE: nat := 4096
  /** Number of distinct page numbers of a 64-bit address. */
  const PAGE_COUNT: nat := 0x10_0000_0000_0000

  /** `1 << n` on unbounded integers. */
  function Pow2(n: nat): (r: nat)
    ensures r > 0
  {
    if n == 0 then 1 else 2 * Pow2(n - 1)
  }

  /** The constants above satisfy the relations the simulator relies on. */
  lemma Geometry()
    ensures Pow2(LOG2_BLOCK_SIZE) == BLOCK_SIZE && Pow2(LOG2_PAGE_SIZE) == PAGE_SIZE
    ensures PAGE_COUNT * PAGE_SIZE == TWO_64
  {
  }

  datatype Option<T> = None | Some(value: T)

  /** One call of `prefetch_line(addr, fill_this_level, metadata)`. */
  datatype Request = Request(addr: u64, fillThisLevel: bool, metadata: u32)

  /** What a `prefetcher_cache_operate` call gives back: its return value and the requests it issued. */
  datatype Reply = Reply(metadata: u32, requests: seq<Request>)

  /**
   * `lru_table::check_hit`: a copy of the entry stored under this tag, if
   * any. The table itself is a map from tag to entry; `lru_table::fill(e)`
   * is the map update `table[tag(e) := e]`.
   */
  function CheckHit<K, V>(table: map<K, V>, tag: K): (r: Option<V>)
    ensures r.Some? <==> tag in table
    ensures r.Some? ==> r.value == table[tag]
  {
    if tag in table then Some(table[tag]) else None
  }

  /** `addr >> LOG2_PAGE_SIZE`. */
  function PageOf(addr: u64): nat
  {
    addr / PAGE_SIZE
  }

  /** `x << n` on `uint64_t`. */
  function ShiftLeft64(x: u64, n: nat): u64
  {
    Wrap64(x * Pow2(n))
  }

  /**
   * Adding `n` pages to an address with 64-bit wrap-around moves its page
   * number by `n` (modulo the number of pages) and keeps its offset in the
   * page.
   */
  lemma {:induction false} PageStep(addr: u64, n: int)
    ensures PageOf(Wrap64(addr + n * PAGE_SIZE)) == (PageOf(addr) + n) % PAGE_COUNT
    ensures Wrap64(addr + n * PAGE_SIZE) % PAGE_SIZE == addr % PAGE_SIZE
  {
    var p, o := addr / PAGE_SIZE, addr % PAGE_SIZE;
    var m, q := (p + n) % PAGE_COUNT, (p + n) / PAGE_COUNT;
    assert addr == p * PAGE_SIZE + o;
    assert p + n == q * PAGE_COUNT + m;
    assert addr + n * PAGE_SIZE == q * TWO_64 + (m * PAGE_SIZE + o);
    WrapUnique(addr + n * PAGE_SIZE, q, m * PAGE_SIZE + o);
  }

  /**
   * The prefetch address `addr + (delta << LOG2_PAGE_SIZE)` computed in
   * `uint64_t`, with `delta` the `uint64_t` image of a signed page count
   * `s`, is `addr` moved by `s` pages.
   */
  lemma {:induction false} ShiftedPages(addr: u64, s: int)
    ensures Wrap64(addr + ShiftLeft64(Wrap64(s), LOG2_PAGE_SIZE)) == Wrap64(addr + s * PAGE_SIZE)
  {
    Geometry();
    var w := Wrap64(s);
    assert s == (s / TWO_64) * TWO_64 + w;
    calc {
      Wrap64(addr + ShiftLeft64(w, LOG2_PAGE_SIZE));
      Wrap64(addr + Wrap64(w * PAGE_SIZE));
      { WrapAddWrapped(addr, w * PAGE_SIZE); }
      Wrap64(addr + w * PAGE_SIZE);
      { WrapUnique(addr + s * PAGE_SIZE, (s / TWO_64) * PAGE_SIZE + (addr + w * PAGE_SIZE) / TWO_64,
                   Wrap64(addr + w * PAGE_SIZE)); }
      Wrap64(addr + s * PAGE_SIZE);
    }
  }
}
