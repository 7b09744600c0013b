/**
 * The AMPM-lite prefetcher adapted to page-table (TLB / address
 * translation) accesses, prefetcher/va_ampm_lite_tlb_cache/va_ampm_lite_tlb_cache.cc.
 *
 * A fixed table of `REGION_COUNT` regions is kept. A region is keyed by a
 * `vpn` and carries an access bitmap and a prefetch bitmap of `MAP_BITS`
 * bits and an `lru` stamp. The stamp is taken from a global counter when the
 * region is built and never refreshed, so "least recently used" means
 * "built longest ago". On an access whose region is tracked, the access bit
 * is set and four searches run: by whole pages in both directions, then by
 * a page plus a block in both directions. Each search looks for a stride
 * pattern: the two steps behind were accessed and the step ahead was neither
 * accessed nor prefetched. Each search stops after `PREFETCH_DEGREE`
 * accepted prefetches or `MAX_DISTANCE` steps.
 *
 * The demand path splits an address with `pt_and_offset` (2 MiB key, one bit
 * per 4 KiB page). After an accepted page prefetch the mark is made with
 * `page_and_offset` (4 KiB key, one bit per 64-byte block). The model
 * follows the code in both places.
 *
 * Whether `prefetch_line` accepts a request is decided by the cache, which
 * is not modelled. It is an oracle: the set `accept` holds the numbers of
 * the calls made during one `prefetcher_cache_operate` that succeed (the
 * n-th call succeeds exactly when `n in accept`).
 */
module AmpmLite {
  import opened Word
  import opened Champsim

  const REGION_COUNT: nat := 128
  const MAX_DISTANCE: nat := 256
  const PREFETCH_DEGREE: nat := 2
  const PTE_BYTES: nat := 8
  /** `PAGE_SIZE / PTE_BYTES`: page-table entries per page, the size of each bitmap. */
  const MAP_BITS: nat := 512
  /** The shift of `pt_and_offset` at level 2: `LOG2_PAGE_SIZE + lg2(PAGE_SIZE / PTE_BYTES)`. */
  const LOG2_TABLE_SPAN: nat := 21
  const TABLE_SPAN: nat := 0x20_0000
  /** `PAGE_SIZE / (BLOCK_SIZE * PTE_BYTES)`: bits scanned by the block checks. */
  const BLOCK_GROUP: nat := 8
  /** Metadata of the requests of the block searches. */
  const BLOCK_METADATA: u32 := 11

  /** The constants above are the expressions the source derives them from. */
  lemma Constants()
    ensures MAP_BITS == PAGE_SIZE / PTE_BYTES && Pow2(9) == MAP_BITS
    ensures LOG2_TABLE_SPAN == LOG2_PAGE_SIZE + 9 * (2 - 1) && Pow2(LOG2_TABLE_SPAN) == TABLE_SPAN
    ensures BLOCK_GROUP == PAGE_SIZE / (BLOCK_SIZE * PTE_BYTES)
  {
  }

  /** Every bit clear, as in a value-initialised `std::bitset`. */
  function ClearBits(n: nat): (m: seq<bool>)
  {
    seq(n, _ => false)
  }

  /** `std::bitset<PAGE_SIZE / PTE_BYTES>`. */
  type Bitmap = m: seq<bool> | |m| == 512 witness ClearBits(512)

  const EMPTY_MAP: Bitmap := ClearBits(MAP_BITS)

  /** `region_type`. */
  datatype Region = Region(vpn: u64, accessMap: Bitmap, prefetchMap: Bitmap, lru: nat)

  datatype MapKind = AccessMap | PrefetchMap

  /** `region_type{vpn}`: empty bitmaps and the given stamp. */
  function NewRegion(vpn: u64, stamp: nat): Region
  {
    Region(vpn, EMPTY_MAP, EMPTY_MAP, stamp)
  }

  function Bit(r: Region, m: MapKind, p: nat): bool
    requires p < MAP_BITS
  {
    if m.AccessMap? then r.accessMap[p] else r.prefetchMap[p]
  }

  function SetBit(r: Region, m: MapKind, p: nat): (r': Region)
    requires p < MAP_BITS
    ensures r'.vpn == r.vpn && r'.lru == r.lru && Bit(r', m, p)
    ensures forall q, n :: 0 <= q < MAP_BITS && (q, n) != (p, m) ==> Bit(r', n, q) == Bit(r, n, q)
  {
    if m.AccessMap? then r.(accessMap := r.accessMap[p := true])
    else r.(prefetchMap := r.prefetchMap[p := true])
  }

  /**
   * The whole state of the plug-in for one cache: the region array, the
   * value of the global counter `region_type::region_lru`, and the two
   * statistics `at_hit` and `at_miss`.
   */
  datatype Table = Table(regions: seq<Region>, clock: nat, atHit: int, atMiss: int)

  /** A table together with the `prefetch_line` calls made so far. */
  datatype Outcome = Outcome(table: Table, calls: seq<Request>)

  // ---------------------------------------------------------------------
  // Address splitting

  /** `page_and_offset`: the page number and the block index within the page. */
  function PageAndOffset(addr: u64): (r: (u64, nat))
    ensures r.1 < PAGE_SIZE / BLOCK_SIZE
    ensures r.0 * PAGE_SIZE + r.1 * BLOCK_SIZE + addr % BLOCK_SIZE == addr
  {
    var low := addr % PAGE_SIZE;
    assert addr == (addr / PAGE_SIZE) * PAGE_SIZE + low;
    assert low == (low / BLOCK_SIZE) * BLOCK_SIZE + low % BLOCK_SIZE;
    assert low % BLOCK_SIZE == addr % BLOCK_SIZE;
    (addr / PAGE_SIZE, low / BLOCK_SIZE)
  }

  /**
   * `pt_and_offset` at level 2: the number of the 2 MiB span covered by one
   * page-table page, and the index of the 4 KiB page in it.
   */
  function PtAndOffset(addr: u64): (r: (u64, nat))
    ensures r.1 < MAP_BITS
    ensures r.0 * TABLE_SPAN + r.1 * PAGE_SIZE + addr % PAGE_SIZE == addr
  {
    var low := addr % TABLE_SPAN;
    assert addr == (addr / TABLE_SPAN) * TABLE_SPAN + low;
    assert low == (low / PAGE_SIZE) * PAGE_SIZE + low % PAGE_SIZE;
    assert low % PAGE_SIZE == addr % PAGE_SIZE;
    (addr / TABLE_SPAN, low / PAGE_SIZE)
  }

  // ---------------------------------------------------------------------
  // Searching the region array

  /** `j` is the first region keyed `vpn`: what `std::find_if` returns. */
  ghost predicate FirstMatch(rs: seq<Region>, vpn: u64, j: nat)
  {
    j < |rs| && rs[j].vpn == vpn && forall k :: 0 <= k < j ==> rs[k].vpn != vpn
  }

  ghost predicate NoMatch(rs: seq<Region>, vpn: u64)
  {
    forall k :: 0 <= k < |rs| ==> rs[k].vpn != vpn
  }

  function FindFrom(rs: seq<Region>, vpn: u64, k: nat): (r: Option<nat>)
    requires k <= |rs|
    decreases |rs| - k
    ensures r.Some? ==> k <= r.value < |rs|
  {
    if k == |rs| then None
    else if rs[k].vpn == vpn then Some(k)
    else FindFrom(rs, vpn, k + 1)
  }

  /** `std::find_if` over the regions for key `vpn`. */
  function Find(rs: seq<Region>, vpn: u64): (r: Option<nat>)
    ensures r.Some? ==> r.value < |rs|
  {
    FindFrom(rs, vpn, 0)
  }

  /** The search from `k` finds the first region at or after `k` keyed `vpn`, if there is one. */
  lemma {:induction false} FindFromMeaning(rs: seq<Region>, vpn: u64, k: nat)
    requires k <= |rs|
    decreases |rs| - k
    ensures var r := FindFrom(rs, vpn, k);
      && (r.Some? ==> k <= r.value < |rs| && rs[r.value].vpn == vpn
                      && forall j :: k <= j < r.value ==> rs[j].vpn != vpn)
      && (r.None? ==> forall j :: k <= j < |rs| ==> rs[j].vpn != vpn)
  {
    if k < |rs| && rs[k].vpn != vpn {
      FindFromMeaning(rs, vpn, k + 1);
    }
  }

  /** `Find` returns the first region keyed `vpn`, and nothing exactly when no region is keyed so. */
  lemma FindMeaning(rs: seq<Region>, vpn: u64)
    ensures Find(rs, vpn).Some? ==> FirstMatch(rs, vpn, Find(rs, vpn).value)
    ensures Find(rs, vpn).None? <==> NoMatch(rs, vpn)
  {
    FindFromMeaning(rs, vpn, 0);
  }

  /** `v` is the first region with the smallest stamp: what `std::min_element` by `lru` returns. */
  ghost predicate IsVictim(rs: seq<Region>, v: nat)
  {
    && v < |rs|
    && (forall k :: 0 <= k < |rs| ==> rs[v].lru <= rs[k].lru)
    && (forall k :: 0 <= k < v ==> rs[v].lru < rs[k].lru)
  }

  function VictimFrom(rs: seq<Region>, k: nat): (v: nat)
    requires k < |rs|
    decreases |rs| - k
    ensures k <= v < |rs|
    ensures forall j :: k <= j < |rs| ==> rs[v].lru <= rs[j].lru
    ensures forall j :: k <= j < v ==> rs[v].lru < rs[j].lru
  {
    if k == |rs| - 1 then k
    else
      var v := VictimFrom(rs, k + 1);
      if rs[v].lru < rs[k].lru then v else k
  }

  /** `std::min_element` over the regions, comparing `lru`. */
  function Victim(rs: seq<Region>): (v: nat)
    requires |rs| > 0
    ensures IsVictim(rs, v)
  {
    VictimFrom(rs, 0)
  }

  // ---------------------------------------------------------------------
  // The checks

  /** The bit `p` of map `m` in the first region keyed `vpn`; false when no region is. */
  function TestBit(rs: seq<Region>, vpn: u64, m: MapKind, p: nat): bool
    requires p < MAP_BITS
  {
    match Find(rs, vpn)
    case None => false
    case Some(j) => Bit(rs[j], m, p)
  }

  /** `check_cl_access`. */
  function CheckClAccess(rs: seq<Region>, a: u64): bool
  {
    TestBit(rs, PtAndOffset(a).0, AccessMap, PtAndOffset(a).1)
  }

  /** `check_cl_prefetch`. */
  function CheckClPrefetch(rs: seq<Region>, a: u64): bool
  {
    TestBit(rs, PtAndOffset(a).0, PrefetchMap, PtAndOffset(a).1)
  }

  /**
   * `check_cl_access` is true exactly when the first region keyed by the
   * address's 2 MiB span has the access bit of the address's page set, and
   * false when no region is keyed so; `check_cl_prefetch` is the same for
   * the prefetch bit.
   */
  lemma CheckClMeaning(rs: seq<Region>, a: u64)
    ensures forall j: nat :: FirstMatch(rs, PtAndOffset(a).0, j) ==>
              && (CheckClAccess(rs, a) <==> rs[j].accessMap[PtAndOffset(a).1])
              && (CheckClPrefetch(rs, a) <==> rs[j].prefetchMap[PtAndOffset(a).1])
    ensures NoMatch(rs, PtAndOffset(a).0) ==> !CheckClAccess(rs, a) && !CheckClPrefetch(rs, a)
  {
    var vpn := PtAndOffset(a).0;
    FindMeaning(rs, vpn);
    forall j: nat | FirstMatch(rs, vpn, j)
      ensures Find(rs, vpn) == Some(j)
    {
      var f := Find(rs, vpn);
      assert f.Some? && FirstMatch(rs, vpn, f.value);
    }
  }

  /** `page_offset - page_offset % BLOCK_GROUP`: the first bit of the aligned group holding `offset`. */
  function GroupBase(offset: nat): (b: nat)
    requires offset < MAP_BITS
    ensures b % BLOCK_GROUP == 0 && b <= offset < b + BLOCK_GROUP && b + BLOCK_GROUP <= MAP_BITS
  {
    offset - offset % BLOCK_GROUP
  }

  /** Some bit of the group of the address's page-table offset is set in map `m`. */
  ghost predicate GroupMarked(rs: seq<Region>, m: MapKind, a: u64)
  {
    exists p :: GroupBase(PtAndOffset(a).1) <= p < GroupBase(PtAndOffset(a).1) + BLOCK_GROUP
                && TestBit(rs, PtAndOffset(a).0, m, p)
  }

  /** An accessed page lies in an accessed group: `check_cl_access` implies `check_cl_block_access`. */
  lemma AccessImpliesGroupAccess(rs: seq<Region>, a: u64)
    ensures CheckClAccess(rs, a) ==> GroupMarked(rs, AccessMap, a)
  {
    var vpn, offset := PtAndOffset(a).0, PtAndOffset(a).1;
    if CheckClAccess(rs, a) {
      assert TestBit(rs, vpn, AccessMap, offset);
    }
  }

  // ---------------------------------------------------------------------
  // Table updates

  /** Replacing the least recently built region by `region_type{vpn}`, which takes the next stamp. */
  function Allocate(t: Table, vpn: u64): (r: Table)
    requires |t.regions| > 0
    ensures |r.regions| == |t.regions| && r.clock == t.clock + 1
    ensures r.atHit == t.atHit && r.atMiss == t.atMiss
    ensures forall k :: 0 <= k < |t.regions| ==>
              r.regions[k] == if IsVictim(t.regions, k) then NewRegion(vpn, t.clock) else t.regions[k]
  {
    var v := Victim(t.regions);
    assert forall k :: 0 <= k < |t.regions| && IsVictim(t.regions, k) ==> k == v;
    t.(regions := t.regions[v := NewRegion(vpn, t.clock)], clock := t.clock + 1)
  }

  /** Only the region at `j` changed, and it kept its key. */
  lemma FindAfterKeyPreservingUpdate(rs: seq<Region>, j: nat, r: Region, vpn: u64)
    requires j < |rs| && r.vpn == rs[j].vpn
    ensures Find(rs[j := r], vpn) == Find(rs, vpn)
  {
    var rs' := rs[j := r];
    FindMeaning(rs, vpn);
    FindMeaning(rs', vpn);
    assert forall k :: 0 <= k < |rs| ==> rs'[k].vpn == rs[k].vpn;
    match Find(rs, vpn)
    case None =>
    case Some(i) =>
      assert FirstMatch(rs', vpn, i);
  }

  /**
   * Lines 146-155 after an accepted page prefetch: set the block bit of the
   * prefetched address in the region keyed by its 4 KiB page, building that
   * region first if it is not tracked.
   */
  function MarkPrefetch(t: Table, a: u64): (r: Table)
    requires |t.regions| > 0
    ensures |r.regions| == |t.regions| && r.atHit == t.atHit && r.atMiss == t.atMiss
    ensures r.clock == t.clock || r.clock == t.clock + 1
    ensures forall k :: 0 <= k < |r.regions| ==> r.regions[k].lru == t.regions[k].lru || r.regions[k].lru == t.clock
    ensures TestBit(r.regions, PageAndOffset(a).0, PrefetchMap, PageAndOffset(a).1)
  {
    var pfVpn, pfOffset := PageAndOffset(a).0, PageAndOffset(a).1;
    match Find(t.regions, pfVpn)
    case Some(j) =>
      var rs := t.regions[j := SetBit(t.regions[j], PrefetchMap, pfOffset)];
      FindAfterKeyPreservingUpdate(t.regions, j, SetBit(t.regions[j], PrefetchMap, pfOffset), pfVpn);
      t.(regions := rs)
    case None =>
      var j := Victim(t.regions);
      var t1 := Allocate(t, pfVpn);
      var rs := t1.regions[j := SetBit(t1.regions[j], PrefetchMap, pfOffset)];
      FindMeaning(t.regions, pfVpn);
      FindMeaning(rs, pfVpn);
      assert FirstMatch(rs, pfVpn, j);
      t1.(regions := rs)
  }

  /**
   * The whole effect of the mark: a tracked page has only its region's
   * prefetch bit set; an untracked page replaces the first region with the
   * smallest stamp by a fresh region for the page, stamped with the
   * counter, which advances, and then sets its bit. Nothing else changes.
   */
  lemma MarkPrefetchEffect(t: Table, a: u64)
    requires |t.regions| > 0
    ensures var pfVpn, pfOffset := PageAndOffset(a).0, PageAndOffset(a).1;
      Find(t.regions, pfVpn).Some? ==>
        var j := Find(t.regions, pfVpn).value;
        MarkPrefetch(t, a) == t.(regions := t.regions[j := SetBit(t.regions[j], PrefetchMap, pfOffset)])
    ensures var pfVpn, pfOffset := PageAndOffset(a).0, PageAndOffset(a).1;
      Find(t.regions, pfVpn).None? ==>
        && MarkPrefetch(t, a).clock == t.clock + 1
        && forall k :: 0 <= k < |t.regions| ==>
             MarkPrefetch(t, a).regions[k] == if IsVictim(t.regions, k) then SetBit(NewRegion(pfVpn, t.clock), PrefetchMap, pfOffset)
                             else t.regions[k]
  {
    var pfVpn, pfOffset := PageAndOffset(a).0, PageAndOffset(a).1;
    if Find(t.regions, pfVpn).None? {
      var v := Victim(t.regions);
      assert forall k :: 0 <= k < |t.regions| && IsVictim(t.regions, k) ==> k == v;
    }
  }

  /** Lines 125-131: count the demand access as a hit or a miss, then set its access bit. */
  function MarkDemand(t: Table, j: nat, offset: nat): (r: Table)
    requires j < |t.regions| && offset < MAP_BITS
  {
    var hit := t.regions[j].accessMap[offset];
    t.(regions := t.regions[j := SetBit(t.regions[j], AccessMap, offset)],
       atHit := if hit then t.atHit + 1 else t.atHit,
       atMiss := if hit then t.atMiss else t.atMiss + 1)
  }

  /**
   * After the demand step the access is recorded (`check_cl_access` now
   * holds), only the demand region changed, and its stamp was not
   * refreshed.
   */
  lemma DemandMarksAccess(t: Table, addr: u64)
    requires Find(t.regions, PtAndOffset(addr).0).Some?
    ensures var vpn, offset := PtAndOffset(addr).0, PtAndOffset(addr).1;
      var j := Find(t.regions, vpn).value;
      var t1 := MarkDemand(t, j, offset);
      && CheckClAccess(t1.regions, addr)
      && t1.regions[j].lru == t.regions[j].lru && t1.regions[j].vpn == vpn
      && |t1.regions| == |t.regions| && t1.clock == t.clock
      && (forall k :: 0 <= k < |t.regions| && k != j ==> t1.regions[k] == t.regions[k])
  {
    var vpn, offset := PtAndOffset(addr).0, PtAndOffset(addr).1;
    FindMeaning(t.regions, vpn);
    var j := Find(t.regions, vpn).value;
    var t1 := MarkDemand(t, j, offset);
    FindAfterKeyPreservingUpdate(t.regions, j, SetBit(t.regions[j], AccessMap, offset), vpn);
    CheckClMeaning(t1.regions, addr);
  }

  // ---------------------------------------------------------------------
  // The searches

  /** The first loop (lines 134-161) steps by pages, the second (lines 165-182) by a page plus a block. */
  datatype SweepKind = PageStride | BlockStride

  function StepSize(s: SweepKind): nat
  {
    if s.PageStride? then PAGE_SIZE else PAGE_SIZE + BLOCK_SIZE
  }

  /** `addr + dir * (i * (signed)unit)` converted to `uint64_t`. */
  function StepAddr(addr: u64, dir: int, i: int, unit: nat): u64
  {
    Wrap64(addr + dir * (i * unit))
  }

  /** The pattern test of step `i`: both steps behind accessed, the step ahead neither accessed nor prefetched. */
  ghost predicate Candidate(s: SweepKind, rs: seq<Region>, addr: u64, dir: int, i: int)
  {
    var unit := StepSize(s);
    var pos := StepAddr(addr, dir, i, unit);
    var neg := StepAddr(addr, -dir, i, unit);
    var neg2 := StepAddr(addr, -dir, 2 * i, unit);
    match s
    case PageStride =>
      CheckClAccess(rs, neg) && CheckClAccess(rs, neg2) && !CheckClAccess(rs, pos) && !CheckClPrefetch(rs, pos)
    case BlockStride =>
      GroupMarked(rs, AccessMap, neg) && GroupMarked(rs, AccessMap, neg2)
      && !GroupMarked(rs, AccessMap, pos) && !GroupMarked(rs, PrefetchMap, pos)
  }

  /** The `prefetch_line` call of a search. */
  function Issue(s: SweepKind, pos: u64, meta: u32): Request
  {
    if s.PageStride? then Request(pos, true, meta) else Request(pos, false, BLOCK_METADATA)
  }

  /** What an accepted prefetch does to the table: the page search marks it, the block search does not. */
  function Commit(s: SweepKind, t: Table, pos: u64): (r: Table)
    requires |t.regions| > 0
    ensures |r.regions| == |t.regions|
  {
    if s.PageStride? then MarkPrefetch(t, pos) else t
  }

  /** How many of the calls numbered `lo` to `hi - 1` the cache accepts. */
  function Accepted(accept: iset<nat>, lo: nat, hi: nat): nat
    decreases hi - lo
  {
    if lo >= hi then 0 else (if lo in accept then 1 else 0) + Accepted(accept, lo + 1, hi)
  }

  lemma {:induction false} AcceptedSplit(accept: iset<nat>, lo: nat, mid: nat, hi: nat)
    requires lo <= mid <= hi
    ensures Accepted(accept, lo, hi) == Accepted(accept, lo, mid) + Accepted(accept, mid, hi)
    decreases mid - lo
  {
    if lo < mid {
      AcceptedSplit(accept, lo + 1, mid, hi);
    }
  }

  /** Stamps are below the counter and pairwise distinct. */
  ghost predicate WellStamped(t: Table)
  {
    && (forall k :: 0 <= k < |t.regions| ==> t.regions[k].lru < t.clock)
    && (forall j, k :: 0 <= j < k < |t.regions| ==> t.regions[j].lru != t.regions[k].lru)
  }

  /** Building a region or marking a prefetch keeps the stamps distinct and below the counter. */
  lemma CommitKeepsStamps(s: SweepKind, t: Table, pos: u64)
    requires |t.regions| == REGION_COUNT
    ensures WellStamped(t) ==> WellStamped(Commit(s, t, pos))
  {
    if s.PageStride? && WellStamped(t) {
      var pfVpn := PageAndOffset(pos).0;
      if Find(t.regions, pfVpn).None? {
        var t1 := Allocate(t, pfVpn);
        assert WellStamped(t1);
      }
    }
  }

  /**
   * How the searches may change the table: same size and statistics, a
   * counter that never goes back, and every stamp either kept or fresh.
   */
  ghost predicate Evolves(t: Table, t': Table)
  {
    && |t'.regions| == |t.regions|
    && t'.atHit == t.atHit && t'.atMiss == t.atMiss
    && t'.clock >= t.clock
    && forall k :: 0 <= k < |t.regions| ==> t'.regions[k].lru == t.regions[k].lru || t'.regions[k].lru >= t.clock
  }

  /** A call of a search: its flags, and an address off the demand page. */
  ghost predicate IssuedBy(s: SweepKind, addr: u64, meta: u32, c: Request)
  {
    && c.fillThisLevel == s.PageStride?
    && c.metadata == (if s.PageStride? then meta else BLOCK_METADATA)
    && PageOf(c.addr) != PageOf(addr)
  }

  /** Step `i` of one direction of one search, with `issued` prefetches accepted so far: the new outcome and count. */
  ghost function Step(s: SweepKind, o: Outcome, addr: u64, meta: u32, dir: int, i: nat, issued: nat,
                      accept: iset<nat>): (r: (Outcome, nat))
    requires |o.table.regions| == REGION_COUNT
    ensures |r.0.table.regions| == REGION_COUNT
  {
    var pos := StepAddr(addr, dir, i, StepSize(s));
    if Candidate(s, o.table.regions, addr, dir, i) && PageOf(addr) != PageOf(pos) then
      var calls := o.calls + [Issue(s, pos, meta)];
      if |o.calls| in accept then (Outcome(Commit(s, o.table, pos), calls), issued + 1)
      else (Outcome(o.table, calls), issued)
    else
      (o, issued)
  }

  /**
   * A step makes a call exactly when the pattern holds and the target is on
   * another page, and in the page search an accepted call marks the target
   * as prefetched; otherwise nothing changes.
   */
  lemma StepGuard(s: SweepKind, o: Outcome, addr: u64, meta: u32, dir: int, i: nat, issued: nat,
                  accept: iset<nat>)
    requires |o.table.regions| == REGION_COUNT
    ensures var r, pos := Step(s, o, addr, meta, dir, i, issued, accept), StepAddr(addr, dir, i, StepSize(s));
      && (|r.0.calls| != |o.calls| <==> Candidate(s, o.table.regions, addr, dir, i) && PageOf(addr) != PageOf(pos))
      && (|r.0.calls| != |o.calls| ==> r.0.calls == o.calls + [Issue(s, pos, meta)])
      && (|r.0.calls| == |o.calls| ==> r == (o, issued))
      && (s.PageStride? && r.1 != issued ==>
            TestBit(r.0.table.regions, PageAndOffset(pos).0, PrefetchMap, PageAndOffset(pos).1))
  {
  }

  /** A step makes at most one call, of the search's kind and off the demand page, and counts it when the cache accepts it. */
  lemma StepCalls(s: SweepKind, o: Outcome, addr: u64, meta: u32, dir: int, i: nat, issued: nat,
                  accept: iset<nat>)
    requires |o.table.regions| == REGION_COUNT
    ensures var r := Step(s, o, addr, meta, dir, i, issued, accept);
      && (|r.0.calls| == |o.calls| || |r.0.calls| == |o.calls| + 1)
      && o.calls <= r.0.calls
      && r.1 == issued + Accepted(accept, |o.calls|, |r.0.calls|)
      && (|r.0.calls| == |o.calls| + 1 ==> IssuedBy(s, addr, meta, r.0.calls[|o.calls|]))
  {
    var pos := StepAddr(addr, dir, i, StepSize(s));
    if Candidate(s, o.table.regions, addr, dir, i) && PageOf(addr) != PageOf(pos) {
      var calls := o.calls + [Issue(s, pos, meta)];
      assert Accepted(accept, |o.calls|, |calls|) == if |o.calls| in accept then 1 else 0;
    }
  }

  /**
   * A step leaves the statistics alone, changes the table only in the page
   * search, and gives a region no stamp but a fresh one.
   */
  lemma StepTable(s: SweepKind, o: Outcome, addr: u64, meta: u32, dir: int, i: nat, issued: nat,
                  accept: iset<nat>)
    requires |o.table.regions| == REGION_COUNT
    ensures var t := Step(s, o, addr, meta, dir, i, issued, accept).0.table;
      && Evolves(o.table, t)
      && (s.BlockStride? ==> t == o.table)
      && (WellStamped(o.table) ==> WellStamped(t))
  {
    var pos := StepAddr(addr, dir, i, StepSize(s));
    CommitKeepsStamps(s, o.table, pos);
  }

  /**
   * One direction of one search, from step `i` with `issued` prefetches
   * accepted so far: the inner `for` loop of lines 135-160 and 166-181.
   */
  ghost function Sweep(s: SweepKind, o: Outcome, addr: u64, meta: u32, dir: int, i: nat, issued: nat,
                       accept: iset<nat>): (r: Outcome)
    requires |o.table.regions| == REGION_COUNT && 1 <= i
    decreases MAX_DISTANCE + 1 - i
    ensures |r.table.regions| == REGION_COUNT
  {
    if i > MAX_DISTANCE || issued >= PREFETCH_DEGREE then o
    else
      var next := Step(s, o, addr, meta, dir, i, issued, accept);
      Sweep(s, next.0, addr, meta, dir, i + 1, next.1, accept)
  }

  /** The four searches of lines 134-184, in program order. */
  ghost function Searches(o: Outcome, addr: u64, meta: u32, accept: iset<nat>): (r: Outcome)
    requires |o.table.regions| == REGION_COUNT
    ensures |r.table.regions| == REGION_COUNT
  {
    var o1 := Sweep(PageStride, o, addr, meta, 1, 1, 0, accept);
    var o2 := Sweep(PageStride, o1, addr, meta, -1, 1, 0, accept);
    var o3 := Sweep(BlockStride, o2, addr, meta, 1, 1, 0, accept);
    Sweep(BlockStride, o3, addr, meta, -1, 1, 0, accept)
  }

  /** The whole of `prefetcher_cache_operate` on the table (its return value is `metadata_in`). */
  ghost function Operate(t: Table, addr: u64, meta: u32, accept: iset<nat>): Outcome
    requires |t.regions| == REGION_COUNT
  {
    var vpn, offset := PtAndOffset(addr).0, PtAndOffset(addr).1;
    match Find(t.regions, vpn)
    case None => Outcome(Allocate(t, vpn), [])
    case Some(j) => Searches(Outcome(MarkDemand(t, j, offset), []), addr, meta, accept)
  }

  // ---------------------------------------------------------------------
  // Properties of the searches

  /** A search that has not stopped takes one step. */
  lemma SweepUnfold(s: SweepKind, o: Outcome, addr: u64, meta: u32, dir: int, i: nat, issued: nat,
                    accept: iset<nat>)
    requires |o.table.regions| == REGION_COUNT && 1 <= i
    ensures var next := Step(s, o, addr, meta, dir, i, issued, accept);
      Sweep(s, o, addr, meta, dir, i, issued, accept)
        == if i > MAX_DISTANCE || issued >= PREFETCH_DEGREE then o
           else Sweep(s, next.0, addr, meta, dir, i + 1, next.1, accept)
  {
  }

  /** A search that has not stopped continues from the outcome of its step. */
  lemma SweepAdvance(s: SweepKind, o: Outcome, o': Outcome, addr: u64, meta: u32, dir: int, i: nat, issued: nat,
                     issued': nat, accept: iset<nat>)
    requires |o.table.regions| == REGION_COUNT && 1 <= i <= MAX_DISTANCE && issued < PREFETCH_DEGREE
    requires (o', issued') == Step(s, o, addr, meta, dir, i, issued, accept)
    ensures Sweep(s, o', addr, meta, dir, i + 1, issued', accept) == Sweep(s, o, addr, meta, dir, i, issued, accept)
  {
    SweepUnfold(s, o, addr, meta, dir, i, issued, accept);
  }

  /** A search that has stopped changes nothing more. */
  lemma SweepStop(s: SweepKind, o: Outcome, addr: u64, meta: u32, dir: int, i: nat, issued: nat,
                  accept: iset<nat>)
    requires |o.table.regions| == REGION_COUNT && 1 <= i
    requires i > MAX_DISTANCE || issued >= PREFETCH_DEGREE
    ensures Sweep(s, o, addr, meta, dir, i, issued, accept) == o
  {
  }

  /**
   * From step `i` on, one direction of a search makes at most one call per
   * remaining step, gets at most `PREFETCH_DEGREE - issued` of them
   * accepted, and only appends calls of its own kind, off the demand page.
   */
  lemma {:induction false} SweepCalls(s: SweepKind, o: Outcome, addr: u64, meta: u32, dir: int, i: nat,
                                      issued: nat, accept: iset<nat>)
    requires |o.table.regions| == REGION_COUNT && 1 <= i <= MAX_DISTANCE + 1 && issued <= PREFETCH_DEGREE
    decreases MAX_DISTANCE + 1 - i
    ensures var r := Sweep(s, o, addr, meta, dir, i, issued, accept);
      && o.calls <= r.calls && |r.calls| <= |o.calls| + (MAX_DISTANCE + 1 - i)
      && Accepted(accept, |o.calls|, |r.calls|) <= PREFETCH_DEGREE - issued
      && (forall k :: |o.calls| <= k < |r.calls| ==> IssuedBy(s, addr, meta, r.calls[k]))
  {
    if i <= MAX_DISTANCE && issued < PREFETCH_DEGREE {
      SweepUnfold(s, o, addr, meta, dir, i, issued, accept);
      StepCalls(s, o, addr, meta, dir, i, issued, accept);
      var next := Step(s, o, addr, meta, dir, i, issued, accept);
      var o' := next.0;
      SweepCalls(s, o', addr, meta, dir, i + 1, next.1, accept);
      var r := Sweep(s, o', addr, meta, dir, i + 1, next.1, accept);
      AcceptedSplit(accept, |o.calls|, |o'.calls|, |r.calls|);
      forall k | |o.calls| <= k < |r.calls|
        ensures IssuedBy(s, addr, meta, r.calls[k])
      {
        if k < |o'.calls| {
          assert r.calls[k] == o'.calls[k];
        }
      }
    }
  }

  /** One direction of a search leaves the statistics alone and never moves the counter back. */
  lemma {:induction false} SweepKeepsStats(s: SweepKind, o: Outcome, addr: u64, meta: u32, dir: int, i: nat,
                                           issued: nat, accept: iset<nat>)
    requires |o.table.regions| == REGION_COUNT && 1 <= i
    decreases MAX_DISTANCE + 1 - i
    ensures var t := Sweep(s, o, addr, meta, dir, i, issued, accept).table;
      t.atHit == o.table.atHit && t.atMiss == o.table.atMiss && t.clock >= o.table.clock
  {
    if i <= MAX_DISTANCE && issued < PREFETCH_DEGREE {
      SweepUnfold(s, o, addr, meta, dir, i, issued, accept);
      StepTable(s, o, addr, meta, dir, i, issued, accept);
      var next := Step(s, o, addr, meta, dir, i, issued, accept);
      SweepKeepsStats(s, next.0, addr, meta, dir, i + 1, next.1, accept);
    }
  }

  /** One direction of a search gives region `k` no stamp but its own or a fresh one. */
  lemma {:induction false} SweepStampFresh(s: SweepKind, o: Outcome, addr: u64, meta: u32, dir: int, i: nat,
                                           issued: nat, accept: iset<nat>, k: nat)
    requires |o.table.regions| == REGION_COUNT && 1 <= i && k < REGION_COUNT
    decreases MAX_DISTANCE + 1 - i
    ensures var t := Sweep(s, o, addr, meta, dir, i, issued, accept).table;
      t.regions[k].lru == o.table.regions[k].lru || t.regions[k].lru >= o.table.clock
  {
    if i <= MAX_DISTANCE && issued < PREFETCH_DEGREE {
      SweepUnfold(s, o, addr, meta, dir, i, issued, accept);
      StepTable(s, o, addr, meta, dir, i, issued, accept);
      var next := Step(s, o, addr, meta, dir, i, issued, accept);
      SweepStampFresh(s, next.0, addr, meta, dir, i + 1, next.1, accept, k);
    }
  }

  /** One direction of a search changes the table only as the searches may. */
  lemma SweepTable(s: SweepKind, o: Outcome, addr: u64, meta: u32, dir: int, i: nat,
                   issued: nat, accept: iset<nat>)
    requires |o.table.regions| == REGION_COUNT && 1 <= i
    ensures Evolves(o.table, Sweep(s, o, addr, meta, dir, i, issued, accept).table)
  {
    SweepKeepsStats(s, o, addr, meta, dir, i, issued, accept);
    forall k | 0 <= k < REGION_COUNT
      ensures var t := Sweep(s, o, addr, meta, dir, i, issued, accept).table;
        t.regions[k].lru == o.table.regions[k].lru || t.regions[k].lru >= o.table.clock
    {
      SweepStampFresh(s, o, addr, meta, dir, i, issued, accept, k);
    }
  }

  /** The block search never changes the table: it does not mark its prefetches. */
  lemma {:induction false} SweepBlockKeepsTable(o: Outcome, addr: u64, meta: u32, dir: int, i: nat,
                                                issued: nat, accept: iset<nat>)
    requires |o.table.regions| == REGION_COUNT && 1 <= i
    decreases MAX_DISTANCE + 1 - i
    ensures Sweep(BlockStride, o, addr, meta, dir, i, issued, accept).table == o.table
  {
    if i <= MAX_DISTANCE && issued < PREFETCH_DEGREE {
      SweepUnfold(BlockStride, o, addr, meta, dir, i, issued, accept);
      StepTable(BlockStride, o, addr, meta, dir, i, issued, accept);
      var next := Step(BlockStride, o, addr, meta, dir, i, issued, accept);
      SweepBlockKeepsTable(next.0, addr, meta, dir, i + 1, next.1, accept);
    }
  }

  /** One direction of a search keeps the stamps distinct and below the counter. */
  lemma {:induction false} SweepStamps(s: SweepKind, o: Outcome, addr: u64, meta: u32, dir: int, i: nat,
                                       issued: nat, accept: iset<nat>)
    requires |o.table.regions| == REGION_COUNT && 1 <= i && WellStamped(o.table)
    decreases MAX_DISTANCE + 1 - i
    ensures WellStamped(Sweep(s, o, addr, meta, dir, i, issued, accept).table)
  {
    if i <= MAX_DISTANCE && issued < PREFETCH_DEGREE {
      SweepUnfold(s, o, addr, meta, dir, i, issued, accept);
      StepTable(s, o, addr, meta, dir, i, issued, accept);
      var next := Step(s, o, addr, meta, dir, i, issued, accept);
      SweepStamps(s, next.0, addr, meta, dir, i + 1, next.1, accept);
    }
  }

  /** No call is on the page of `addr`. */
  ghost predicate OffPage(calls: seq<Request>, addr: u64)
  {
    forall k :: 0 <= k < |calls| ==> PageOf(calls[k].addr) != PageOf(addr)
  }

  /** A whole direction of a search, in terms of the calls made before it. */
  lemma SweepExtends(s: SweepKind, o: Outcome, addr: u64, meta: u32, dir: int, accept: iset<nat>)
    requires |o.table.regions| == REGION_COUNT
    ensures var r := Sweep(s, o, addr, meta, dir, 1, 0, accept);
      && |r.calls| <= |o.calls| + MAX_DISTANCE
      && Accepted(accept, 0, |r.calls|) <= Accepted(accept, 0, |o.calls|) + PREFETCH_DEGREE
      && (OffPage(o.calls, addr) ==> OffPage(r.calls, addr))
      && r.table.atHit == o.table.atHit && r.table.atMiss == o.table.atMiss
      && (WellStamped(o.table) ==> WellStamped(r.table))
  {
    SweepCalls(s, o, addr, meta, dir, 1, 0, accept);
    SweepTable(s, o, addr, meta, dir, 1, 0, accept);
    if WellStamped(o.table) {
      SweepStamps(s, o, addr, meta, dir, 1, 0, accept);
    }
    var r := Sweep(s, o, addr, meta, dir, 1, 0, accept);
    AcceptedSplit(accept, 0, |o.calls|, |r.calls|);
    if OffPage(o.calls, addr) {
      forall k | 0 <= k < |r.calls|
        ensures PageOf(r.calls[k].addr) != PageOf(addr)
      {
        if k < |o.calls| {
          assert r.calls[k] == o.calls[k];
        } else {
          assert IssuedBy(s, addr, meta, r.calls[k]);
        }
      }
    }
  }

  /** The four searches together, starting with no calls. */
  lemma SearchesBounds(o: Outcome, addr: u64, meta: u32, accept: iset<nat>)
    requires |o.table.regions| == REGION_COUNT && o.calls == []
    ensures var r := Searches(o, addr, meta, accept);
      && |r.calls| <= 4 * MAX_DISTANCE
      && Accepted(accept, 0, |r.calls|) <= 4 * PREFETCH_DEGREE
      && OffPage(r.calls, addr)
      && r.table.atHit == o.table.atHit && r.table.atMiss == o.table.atMiss
      && (WellStamped(o.table) ==> WellStamped(r.table))
  {
    SweepExtends(PageStride, o, addr, meta, 1, accept);
    var o1 := Sweep(PageStride, o, addr, meta, 1, 1, 0, accept);
    SweepExtends(PageStride, o1, addr, meta, -1, accept);
    var o2 := Sweep(PageStride, o1, addr, meta, -1, 1, 0, accept);
    SweepExtends(BlockStride, o2, addr, meta, 1, accept);
    var o3 := Sweep(BlockStride, o2, addr, meta, 1, 1, 0, accept);
    SweepExtends(BlockStride, o3, addr, meta, -1, accept);
  }

  /**
   * The guard `(addr >> LOG2_PAGE_SIZE) != (pos_step_addr >> LOG2_PAGE_SIZE)`
   * of both searches always holds: every step is at least a page and far
   * less than the address space, with or without wrap-around.
   */
  lemma StepLeavesPage(addr: u64, dir: int, i: int, unit: nat)
    requires dir == 1 || dir == -1
    requires 1 <= i <= MAX_DISTANCE && (unit == PAGE_SIZE || unit == PAGE_SIZE + BLOCK_SIZE)
    ensures PageOf(StepAddr(addr, dir, i, unit)) != PageOf(addr)
  {
    var step := dir * (i * unit);
    assert PAGE_SIZE <= i * unit <= MAX_DISTANCE * (PAGE_SIZE + BLOCK_SIZE);
    assert step == i * unit || step == -(i * unit);
    var pos := StepAddr(addr, dir, i, unit);
    WrapResidue(addr + step);
    var q := (addr + step) / TWO_64;
    assert addr == PageOf(addr) * PAGE_SIZE + addr % PAGE_SIZE;
    assert pos == PageOf(pos) * PAGE_SIZE + pos % PAGE_SIZE;
  }

  // ---------------------------------------------------------------------
  // Properties of one call

  /**
   * Lines 117-122: an access whose span is not tracked replaces the least
   * recently built region by a fresh one for that span with the current
   * stamp, advances the counter, leaves the statistics alone and issues
   * nothing.
   */
  lemma OperateMissReplacesOldest(t: Table, addr: u64, meta: u32, accept: iset<nat>)
    requires |t.regions| == REGION_COUNT && NoMatch(t.regions, PtAndOffset(addr).0)
    ensures var o := Operate(t, addr, meta, accept);
      && o.calls == []
      && o.table.atHit == t.atHit && o.table.atMiss == t.atMiss && o.table.clock == t.clock + 1
      && forall k :: 0 <= k < REGION_COUNT ==>
           o.table.regions[k] == if IsVictim(t.regions, k) then NewRegion(PtAndOffset(addr).0, t.clock) else t.regions[k]
  {
    FindMeaning(t.regions, PtAndOffset(addr).0);
  }

  /**
   * Lines 125-128: an access whose span is tracked raises exactly one of
   * `at_hit` and `at_miss` by one, and it is `at_hit` exactly when the
   * page had been accessed before.
   */
  lemma OperateCountsDemand(t: Table, addr: u64, meta: u32, accept: iset<nat>)
    requires |t.regions| == REGION_COUNT && !NoMatch(t.regions, PtAndOffset(addr).0)
    ensures var o := Operate(t, addr, meta, accept);
      && o.table.atHit + o.table.atMiss == t.atHit + t.atMiss + 1
      && o.table.atHit >= t.atHit && o.table.atMiss >= t.atMiss
      && (o.table.atHit == t.atHit + 1 <==> CheckClAccess(t.regions, addr))
  {
    var vpn, offset := PtAndOffset(addr).0, PtAndOffset(addr).1;
    FindMeaning(t.regions, vpn);
    var j := Find(t.regions, vpn).value;
    CheckClMeaning(t.regions, addr);
    SearchesBounds(Outcome(MarkDemand(t, j, offset), []), addr, meta, accept);
  }

  /**
   * Lines 134-184 as a whole: at most `MAX_DISTANCE` calls and at most
   * `PREFETCH_DEGREE` accepted ones per direction of each search, none on
   * the demand page; the table keeps its `REGION_COUNT` regions, and stamps
   * stay distinct and below the counter.
   */
  lemma OperateBounds(t: Table, addr: u64, meta: u32, accept: iset<nat>)
    requires |t.regions| == REGION_COUNT
    ensures var o := Operate(t, addr, meta, accept);
      && |o.table.regions| == REGION_COUNT
      && |o.calls| <= 4 * MAX_DISTANCE
      && Accepted(accept, 0, |o.calls|) <= 4 * PREFETCH_DEGREE
      && OffPage(o.calls, addr)
      && (WellStamped(t) ==> WellStamped(o.table))
  {
    var vpn, offset := PtAndOffset(addr).0, PtAndOffset(addr).1;
    match Find(t.regions, vpn)
    case None =>
      if WellStamped(t) {
        assert WellStamped(Allocate(t, vpn));
      }
    case Some(j) =>
      var o0 := Outcome(MarkDemand(t, j, offset), []);
      assert WellStamped(t) ==> WellStamped(o0.table);
      SearchesBounds(o0, addr, meta, accept);
  }

  // ---------------------------------------------------------------------
  // The plug-in state

  /** The region array of one cache (one element of `regions`), with the globals it uses. */
  class AmpmLitePrefetcher {
    var regions: array<Region>
    var regionLru: nat
    var atHit: int
    var atMiss: int

    ghost predicate Valid()
      reads this
    {
      regions.Length == REGION_COUNT
    }

    ghost function Model(): Table
      reads this, regions
    {
      Table(regions[..], regionLru, atHit, atMiss)
    }

    /**
     * `prefetcher_initialize`: `REGION_COUNT` default regions, keyed 0 and
     * stamped in order from the current value of the global counter.
     */
    constructor (lruClock: nat)
      ensures Valid() && fresh(regions)
      ensures forall k :: 0 <= k < REGION_COUNT ==> regions[k] == NewRegion(0, lruClock + k)
      ensures regionLru == lruClock + REGION_COUNT && atHit == 0 && atMiss == 0
      ensures WellStamped(Model())
    {
      regions := new Region[REGION_COUNT](k => NewRegion(0, lruClock + k));
      regionLru := lruClock + REGION_COUNT;
      atHit, atMiss := 0, 0;
    }

    /** `check_cl_block_access`: scan the aligned group of access bits. */
    method CheckClBlockAccess(a: u64) returns (b: bool)
      ensures b == GroupMarked(regions[..], AccessMap, a)
    {
      var vpn, pageOffset := PtAndOffset(a).0, PtAndOffset(a).1;
      var base := GroupBase(pageOffset);
      var i := 0;
      while i < BLOCK_GROUP
        invariant 0 <= i <= BLOCK_GROUP
        invariant forall p :: base <= p < base + i ==> !TestBit(regions[..], vpn, AccessMap, p)
      {
        var region := Find(regions[..], vpn);
        if region.Some? && regions[region.value].accessMap[base + i] {
          assert TestBit(regions[..], vpn, AccessMap, base + i);
          return true;
        }
        i := i + 1;
      }
      return false;
    }

    /** `check_cl_block_prefetch`: scan the aligned group of prefetch bits. */
    method CheckClBlockPrefetch(a: u64) returns (b: bool)
      ensures b == GroupMarked(regions[..], PrefetchMap, a)
    {
      var vpn, pageOffset := PtAndOffset(a).0, PtAndOffset(a).1;
      var base := GroupBase(pageOffset);
      var i := 0;
      while i < BLOCK_GROUP
        invariant 0 <= i <= BLOCK_GROUP
        invariant forall p :: base <= p < base + i ==> !TestBit(regions[..], vpn, PrefetchMap, p)
      {
        var region := Find(regions[..], vpn);
        if region.Some? && regions[region.value].prefetchMap[base + i] {
          assert TestBit(regions[..], vpn, PrefetchMap, base + i);
          return true;
        }
        i := i + 1;
      }
      return false;
    }

    /** Overwrite the least recently built region with `region_type{vpn}`. */
    method AllocateRegion(vpn: u64) returns (v: nat)
      requires Valid()
      modifies this, regions
      ensures Valid() && regions == old(regions)
      ensures v == Victim(old(regions[..])) && v < REGION_COUNT
      ensures Model() == Allocate(old(Model()), vpn)
    {
      v := Victim(regions[..]);
      regions[v] := NewRegion(vpn, regionLru);
      regionLru := regionLru + 1;
    }

    /** Lines 146-155: mark an accepted page prefetch. */
    method RecordPrefetch(a: u64)
      requires Valid()
      modifies this, regions
      ensures Valid() && regions == old(regions)
      ensures Model() == MarkPrefetch(old(Model()), a)
    {
      var pfVpn, pfPageOffset := PageAndOffset(a).0, PageAndOffset(a).1;
      var pfRegion := Find(regions[..], pfVpn);
      var j: nat;
      if pfRegion.None? {
        j := AllocateRegion(pfVpn);
      } else {
        j := pfRegion.value;
      }
      regions[j] := SetBit(regions[j], PrefetchMap, pfPageOffset);
    }

    /**
     * Step `i` of one direction of the page search: the body of the loop of
     * lines 135-160. `before` is the search's outcome so far.
     */
    method PageSearchStep(addr: u64, meta: u32, dir: int, i: nat, issued: nat, accept: iset<nat>,
                          calls0: seq<Request>, ghost before: Outcome) returns (calls: seq<Request>, issued': nat)
      requires Valid() && 1 <= i <= MAX_DISTANCE && issued < PREFETCH_DEGREE
      requires before == Outcome(Model(), calls0)
      modifies this, regions
      ensures Valid() && regions == old(regions)
      ensures Sweep(PageStride, Outcome(Model(), calls), addr, meta, dir, i + 1, issued', accept)
           == Sweep(PageStride, before, addr, meta, dir, i, issued, accept)
    {
      calls, issued' := calls0, issued;
      var posStep := StepAddr(addr, dir, i, PAGE_SIZE);
      var negStep := StepAddr(addr, -dir, i, PAGE_SIZE);
      var neg2Step := StepAddr(addr, -dir, 2 * i, PAGE_SIZE);
      if CheckClAccess(regions[..], negStep) && CheckClAccess(regions[..], neg2Step)
         && !CheckClAccess(regions[..], posStep) && !CheckClPrefetch(regions[..], posStep)
      {
        if addr / PAGE_SIZE != posStep / PAGE_SIZE {
          var success := |calls| in accept;
          calls := calls + [Request(posStep, true, meta)];
          if success {
            RecordPrefetch(posStep);
            issued' := issued' + 1;
          }
        }
      }
      SweepAdvance(PageStride, before, Outcome(Model(), calls), addr, meta, dir, i, issued, issued', accept);
    }

    /** Step `i` of one direction of the block search: the body of the loop of lines 166-181. */
    method BlockSearchStep(addr: u64, meta: u32, dir: int, i: nat, issued: nat, accept: iset<nat>,
                           calls0: seq<Request>) returns (calls: seq<Request>, issued': nat)
      requires Valid()
      ensures (Outcome(Model(), calls), issued')
           == Step(BlockStride, Outcome(Model(), calls0), addr, meta, dir, i, issued, accept)
    {
      calls, issued' := calls0, issued;
      var unit := PAGE_SIZE + BLOCK_SIZE;
      var posStep := StepAddr(addr, dir, i, unit);
      var negStep := StepAddr(addr, -dir, i, unit);
      var neg2Step := StepAddr(addr, -dir, 2 * i, unit);
      var negAccessed := CheckClBlockAccess(negStep);
      var neg2Accessed := CheckClBlockAccess(neg2Step);
      var posAccessed := CheckClBlockAccess(posStep);
      var posPrefetched := CheckClBlockPrefetch(posStep);
      if negAccessed && neg2Accessed && !posAccessed && !posPrefetched {
        if addr / PAGE_SIZE != posStep / PAGE_SIZE {
          var success := |calls| in accept;
          calls := calls + [Request(posStep, false, BLOCK_METADATA)];
          if success {
            issued' := issued' + 1;
          }
        }
      }
    }

    /** One direction of the page search, lines 135-160. */
    method RunPageSweep(addr: u64, meta: u32, dir: int, accept: iset<nat>, calls0: seq<Request>)
      returns (calls: seq<Request>)
      requires Valid()
      modifies this, regions
      ensures Valid() && regions == old(regions)
      ensures Outcome(Model(), calls) == Sweep(PageStride, Outcome(old(Model()), calls0), addr, meta, dir, 1, 0, accept)
    {
      ghost var goal := Sweep(PageStride, Outcome(old(Model()), calls0), addr, meta, dir, 1, 0, accept);
      calls := calls0;
      var i: nat, issued: nat := 1, 0;
      while i <= MAX_DISTANCE && issued < PREFETCH_DEGREE
        invariant regions == old(regions)
        invariant Valid()
        invariant 1 <= i <= MAX_DISTANCE + 1
        invariant goal == Sweep(PageStride, Outcome(Model(), calls), addr, meta, dir, i, issued, accept)
        decreases MAX_DISTANCE + 1 - i
      {
        ghost var before := Outcome(Model(), calls);
        calls, issued := PageSearchStep(addr, meta, dir, i, issued, accept, calls, before);
        i := i + 1;
      }
      ghost var last := Outcome(Model(), calls);
      SweepStop(PageStride, last, addr, meta, dir, i, issued, accept);
    }

    /** One direction of the block search, lines 166-181; it reads the regions and changes nothing. */
    method RunBlockSweep(addr: u64, meta: u32, dir: int, accept: iset<nat>, calls0: seq<Request>)
      returns (calls: seq<Request>)
      requires Valid()
      ensures Outcome(Model(), calls) == Sweep(BlockStride, Outcome(Model(), calls0), addr, meta, dir, 1, 0, accept)
    {
      ghost var goal := Sweep(BlockStride, Outcome(Model(), calls0), addr, meta, dir, 1, 0, accept);
      calls := calls0;
      var i: nat, issued: nat := 1, 0;
      while i <= MAX_DISTANCE && issued < PREFETCH_DEGREE
        invariant 1 <= i <= MAX_DISTANCE + 1
        invariant Sweep(BlockStride, Outcome(Model(), calls), addr, meta, dir, i, issued, accept) == goal
        decreases MAX_DISTANCE + 1 - i
      {
        SweepUnfold(BlockStride, Outcome(Model(), calls), addr, meta, dir, i, issued, accept);
        calls, issued := BlockSearchStep(addr, meta, dir, i, issued, accept, calls);
        i := i + 1;
      }
    }

    /** `prefetcher_cache_operate`: returns `metadata_in`; the table and the calls are those of `Operate`. */
    method CacheOperate(addr: u64, metadataIn: u32, accept: iset<nat>) returns (r: u32, calls: seq<Request>)
      requires Valid()
      modifies this, regions
      ensures Valid() && regions == old(regions)
      ensures r == metadataIn
      ensures Outcome(Model(), calls) == Operate(old(Model()), addr, metadataIn, accept)
    {
      r := metadataIn;
      var currentVpn, pageOffset := PtAndOffset(addr).0, PtAndOffset(addr).1;
      var demandRegion := Find(regions[..], currentVpn);
      if demandRegion.None? {
        var _ := AllocateRegion(currentVpn);
        calls := [];
        return;
      }
      var j := demandRegion.value;
      if regions[j].accessMap[pageOffset] {
        atHit := atHit + 1;
      } else {
        atMiss := atMiss + 1;
      }
      regions[j] := SetBit(regions[j], AccessMap, pageOffset);
      assert Model() == MarkDemand(old(Model()), j, pageOffset);
      calls := RunPageSweep(addr, metadataIn, 1, accept, []);
      calls := RunPageSweep(addr, metadataIn, -1, accept, calls);
      calls := RunBlockSweep(addr, metadataIn, 1, accept, calls);
      calls := RunBlockSweep(addr, metadataIn, -1, accept, calls);
    }
  }
}
