/**
 * The stride prefetcher of prefetcher/asp_ptempo/asp_ptempo.cc. It shares
 * the stride rule of `StrideRule`, but prefetches only once the state has
 * reached 2, and it places the prefetch at the block offset seen most often
 * so far, counted in a 64-entry histogram.
 */
module AspPtempo {
  import opened Word
  import opened Champsim
  import opened StrideRule

  /** Number of blocks in a page: the size of the offset histogram. */
  const OFFSET_COUNT: nat := 64

  /**
   * `(state == 2) ? stride : 0` as a `uint64_t`: non-zero exactly when the
   * state is 2 and the stride is non-zero, and then it is the stride.
   */
  function Delta(e: AspEntry): (d: u64)
    ensures d != 0 <==> e.state == 2 && e.stride != 0
    ensures d != 0 ==> AsSigned(d) == e.stride
  {
    SignedCompare(e.stride, 0);
    SignedRoundTrip(e.stride);
    Wrap64(if e.state == 2 then e.stride else 0)
  }

  /**
   * `(addr >> LOG2_BLOCK_SIZE) & bitmask(LOG2_PAGE_SIZE - LOG2_BLOCK_SIZE)`:
   * the index of the accessed block within its page.
   */
  function BlockOffset(addr: u64): (o: nat)
    ensures o < OFFSET_COUNT
    ensures o == (addr % PAGE_SIZE) / BLOCK_SIZE
  {
    assert Pow2(LOG2_PAGE_SIZE - LOG2_BLOCK_SIZE) == OFFSET_COUNT;
    BlockInPage(addr);
    (addr / BLOCK_SIZE) % Pow2(LOG2_PAGE_SIZE - LOG2_BLOCK_SIZE)
  }

  /** The block number modulo the blocks of a page is the block index of the page offset. */
  lemma BlockInPage(addr: u64)
    ensures (addr / BLOCK_SIZE) % OFFSET_COUNT == (addr % PAGE_SIZE) / BLOCK_SIZE
  {
    var q, r := addr / BLOCK_SIZE, addr % BLOCK_SIZE;
    var lo := q % OFFSET_COUNT;
    SplitPage(addr, q / OFFSET_COUNT, lo, r);
  }

  /** An address `hi` pages, `lo` blocks and `r` bytes in has page offset `lo * BLOCK_SIZE + r`. */
  lemma SplitPage(addr: int, hi: int, lo: int, r: int)
    requires addr == (hi * OFFSET_COUNT + lo) * BLOCK_SIZE + r
    requires 0 <= lo < OFFSET_COUNT && 0 <= r < BLOCK_SIZE
    ensures addr % PAGE_SIZE == lo * BLOCK_SIZE + r
  {
    assert addr == hi * PAGE_SIZE + (lo * BLOCK_SIZE + r);
  }

  /**
   * `addr + (delta << LOG2_PAGE_SIZE) + (offset << LOG2_BLOCK_SIZE)` in
   * `uint64_t`: `delta` pages (read as signed) and `offset` blocks away.
   */
  function PrefetchAddress(addr: u64, delta: u64, offset: nat): (a: u64)
    requires offset < OFFSET_COUNT
    ensures a == Wrap64(addr + AsSigned(delta) * PAGE_SIZE + offset * BLOCK_SIZE)
  {
    ShiftedPages(addr, AsSigned(delta));
    WrapInRange(delta);
    assert Wrap64(AsSigned(delta)) == delta;
    var paged := Wrap64(addr + ShiftLeft64(delta, LOG2_PAGE_SIZE));
    Geometry();
    assert ShiftLeft64(offset, LOG2_BLOCK_SIZE) == offset * BLOCK_SIZE;
    WrapAddWrapped(offset * BLOCK_SIZE, addr + AsSigned(delta) * PAGE_SIZE);
    Wrap64(paged + ShiftLeft64(offset, LOG2_BLOCK_SIZE))
  }

  /** The first access of an IP never prefetches. */
  lemma FirstAccessNoPrefetch(ip: u64, vpn: u64)
    ensures Delta(Next(None, ip, vpn)) == 0
  {
  }

  /** With a retained entry, pages `v`, `v+s`, `v+2s`, `v+3s` give deltas 0, 0, 0, s. */
  lemma ConstantStrideDeltas(ip: u64, v: u64, s: i64)
    requires s != 0 && 0 <= v + 3 * s < TWO_64
    ensures var e1 := Next(None, ip, v);
      var e2 := Next(Some(e1), ip, v + s);
      var e3 := Next(Some(e2), ip, v + 2 * s);
      var e4 := Next(Some(e3), ip, v + 3 * s);
      && Delta(e1) == 0 && Delta(e2) == 0 && Delta(e3) == 0 && Delta(e4) == Wrap64(s)
  {
    ConstantStrideTrain(ip, v, s);
  }

  /** `m` is the first index of `c` holding its largest count. */
  ghost predicate FirstMax(c: seq<nat>, m: nat)
  {
    && m < |c|
    && (forall k :: 0 <= k < |c| ==> c[k] <= c[m])
    && (forall k :: 0 <= k < m ==> c[k] < c[m])
  }

  /** `std::max_element` over the histogram: the first index holding the largest count. */
  method MaxElement(counter: array<nat>) returns (m: nat)
    requires counter.Length > 0
    ensures m < counter.Length
    ensures forall k :: 0 <= k < counter.Length ==> counter[k] <= counter[m]
    ensures forall k :: 0 <= k < m ==> counter[k] < counter[m]
  {
    m := 0;
    var i := 1;
    while i < counter.Length
      invariant 1 <= i <= counter.Length && m < i
      invariant forall k :: 0 <= k < i ==> counter[k] <= counter[m]
      invariant forall k :: 0 <= k < m ==> counter[k] < counter[m]
    {
      if counter[m] < counter[i] {
        m := i;
      }
      i := i + 1;
    }
  }

  /** The per-cache state of the plug-in (one element of `asps`). */
  class AspPtempoPrefetcher {
    var table: map<u64, AspEntry>
    var counter: array<nat>

    ghost predicate Valid()
      reads this
    {
      WellFormed(table) && counter.Length == OFFSET_COUNT
    }

    /** An empty table and a zeroed histogram. */
    constructor ()
      ensures Valid() && table == map[] && fresh(counter)
      ensures forall k :: 0 <= k < OFFSET_COUNT ==> counter[k] == 0
    {
      table := map[];
      counter := new nat[OFFSET_COUNT](_ => 0);
    }

    /** `asp::initiate_lookahead`: store the updated entry and return its delta. */
    method InitiateLookahead(ip: u64, vpn: u64) returns (delta: u64)
      requires Valid()
      modifies this
      ensures Valid() && counter == old(counter)
      ensures table == old(table)[ip := Next(CheckHit(old(table), ip), ip, vpn)]
      ensures delta == Delta(table[ip])
    {
      NextKeepsWellFormed(table, ip, vpn);
      var found := CheckHit(table, ip);
      var entry := Next(found, ip, vpn);
      table := table[entry.ip := entry];
      delta := Delta(entry);
    }

    /**
     * `asp::offset_count`: count one more access at `offset` and return the
     * lowest offset with the largest count.
     */
    method OffsetCount(offset: nat) returns (maxOffset: nat)
      requires Valid() && offset < OFFSET_COUNT
      modifies counter
      ensures counter[..] == old(counter[..])[offset := old(counter[offset]) + 1]
      ensures FirstMax(counter[..], maxOffset)
    {
      counter[offset] := counter[offset] + 1;
      maxOffset := MaxElement(counter);
    }

    /**
     * `prefetcher_cache_operate`: update the stride entry and the histogram;
     * unless warming up, prefetch `stride` pages ahead at the most frequent
     * block offset once the state is 2. `metadata_in` is returned unchanged.
     */
    method CacheOperate(addr: u64, ip: u64, warmup: bool, metadataIn: u32) returns (r: u32, issued: seq<Request>)
      requires Valid()
      modifies this, counter
      ensures Valid() && counter == old(counter)
      ensures var e := Next(CheckHit(old(table), ip), ip, PageOf(addr));
        var o := BlockOffset(addr);
        && table == old(table)[ip := e]
        && counter[..] == old(counter[..])[o := old(counter[o]) + 1]
        && (e.state != 2 || e.stride == 0 || warmup ==> issued == [])
        && (e.state == 2 && e.stride != 0 && !warmup ==>
              exists m: nat :: FirstMax(counter[..], m) &&
                issued == [Request(Wrap64(addr + e.stride * PAGE_SIZE + m * BLOCK_SIZE), true, 1)])
      ensures r == metadataIn
    {
      ghost var e := Next(CheckHit(table, ip), ip, PageOf(addr));
      var delta := InitiateLookahead(ip, addr / PAGE_SIZE);
      var offset := OffsetCount(BlockOffset(addr));
      issued := [];
      if delta != 0 {
        var pfAddr := PrefetchAddress(addr, delta, offset);
        if !warmup {
          issued := [Request(pfAddr, true, 1)];
          assert FirstMax(counter[..], offset) &&
            issued == [Request(Wrap64(addr + e.stride * PAGE_SIZE + offset * BLOCK_SIZE), true, 1)];
        }
      }
      r := metadataIn;
    }
  }
}
