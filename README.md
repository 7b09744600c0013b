# Prefetcher plug-ins of a ChampSim fork, modelled in Dafny

ChampSim is a trace-driven microarchitecture simulator. A cache level calls a
prefetcher plug-in once per access through `prefetcher_cache_operate(addr,
ip, cache_hit, …, metadata_in)`. The plug-in may call
`prefetch_line(addr, fill_this_level, metadata)` on the cache and returns a
metadata word. This fork adds prefetchers for address-translation (TLB and
page-table) traffic. This project models seven of them and proves what each
promises:

| plug-in | source | module(s) | form |
|---|---|---|---|
| AMPM-lite over page-table spans | `prefetcher/va_ampm_lite_tlb_cache/va_ampm_lite_tlb_cache.cc` | `AmpmLite` | pure splits and lookups; a class over a region `array` with search loops, proved against ghost functions |
| Markov | `prefetcher/mp/mp.cc` | `Markov`, `MruList` | class with a map-valued table and `previousVpn` |
| page distance | `prefetcher/dp_slot_1/dp_slot_1.cc` | `DistancePrefetch`, `MruList` | class with a map-valued table and two previous values |
| adaptive stride | `prefetcher/asp/asp.cc` | `Asp`, `StrideRule` | class with a map-valued table; pure stride rule |
| adaptive stride with offset histogram | `prefetcher/asp_ptempo/asp_ptempo.cc` | `AspPtempo`, `StrideRule` | class with a table and a 64-entry `array` histogram |
| next page | `prefetcher/sp/sp.cc` | `NextPage` | pure function |
| next page plus page-table line | `prefetcher/sp_tlb_cache/sp_tlb_cache.cc` | `NextPageTlb` | pure function |

Shared modules:

- `Word` covers `uint64_t`, `int64_t` and `uint32_t`. Every conversion into `uint64_t` is reduction modulo 2^64 (`Wrap64`). Every conversion into `int64_t` is the two's complement reading (`AsSigned`).
- `Champsim` holds the simulator's default geometry (64-byte blocks, 4 KiB pages). A `prefetch_line` call is recorded as a `Request` value, and a plug-in's effect on the cache is the sequence of requests it issues, in order.
- `champsim::msl::lru_table` is a map from tag to entry: `check_hit` is a lookup and `fill(e)` is the update `table[tag(e) := e]`.
- The per-`CACHE*` global `std::map` of each plug-in becomes one object per cache.
- `warmup` and `cache_hit` are inputs.

AMPM-lite is the largest part:

- Four ghost functions state the table update and the calls of one `prefetcher_cache_operate`: `Step`, `Sweep`, `Searches` and `Operate`.
- The methods of `AmpmLitePrefetcher` are proved equal to them through `Model()`.
- The lemmas then bound the calls, the accepted prefetches and the stamps.
- Whether `prefetch_line` succeeds is decided by the cache, so it is an oracle: a set `accept` of call numbers. The n-th call of one operation succeeds exactly when `n in accept`.

The demand path and the checks split an address with `pt_and_offset`: a 2 MiB key, and one bit per 4 KiB page. The mark after an accepted page prefetch uses `page_and_offset`: a 4 KiB key, and one bit per 64-byte block. The model does the same in both places.

`sp_tlb_cache.cc` does not compile as written:

- it declares `pf_addr` twice in one block;
- it declares `PTE_PYTES` but reads `PTE_BYTES`.

`NextPageTlb` models the evident intent: two independent requests, with `PTE_BYTES` = 8.

## Model

| member | source | states |
|---|---|---|
| Word.AsSigned | prefetcher/asp/asp.cc:32 | `static_cast<int64_t>` gives an `int64_t` with the same residue modulo 2^64 as its argument |
| Word.SignedCompare | prefetcher/asp/asp.cc:34 | comparing the `uint64_t` local `stride` with the `int64_t` field agrees with comparing the signed values, in both directions |
| Word.SignedRoundTrip | prefetcher/asp/asp.cc:38 | an `int64_t` stored through a `uint64_t` local comes back unchanged |
| Champsim.CheckHit | prefetcher/mp/mp.cc:61-62 | `check_hit` finds an entry exactly when the tag is stored, and returns that entry |
| Champsim.PageStep | prefetcher/sp/sp.cc:10 | adding `n` pages with 64-bit wrap-around moves the page number by `n` modulo the page count and keeps the offset in the page |
| Champsim.ShiftedPages | prefetcher/asp/asp.cc:55 | `addr + (delta << LOG2_PAGE_SIZE)` in `uint64_t`, with `delta` the image of a signed count `s`, is `addr` moved by `s` pages |
| MruList.Remove | prefetcher/mp/mp.cc:32 | `list::remove(x)` erases every `x` (the multiset loses exactly the `x`s) and keeps the rest as a subsequence in order |
| MruList.TouchFront | prefetcher/mp/mp.cc:31-36 | after an access to `x` the list starts with `x`, and `x` occurs exactly once |
| MruList.TouchBounded | prefetcher/mp/mp.cc:33-35 | a list that fits its slots still fits them after the access |
| MruList.TouchKeepsOrder | prefetcher/mp/mp.cc:32-35 | behind the new front the list is the old list without `x`, in order; at most its last element is dropped, and only when the old list was full |
| Markov.MpEntry.AccessVpn | prefetcher/mp/mp.cc:31-36 | `access_vpn(v)` keeps the tag, puts `v` first and once, keeps at most `SLOT_SIZE` (4) elements, and keeps the other successors in order, dropping only the oldest of a full list |
| Markov.PrefetchSlot | prefetcher/mp/mp.cc:38-42 | `prefetch_slot` issues one `prefetch_line(pf_vpn, true, metadata_in)` per list element, in list order |
| Markov.NextTableWellFormed | prefetcher/mp/mp.cc:57-80 | the lookahead keeps every entry under its own tag with at most `SLOT_SIZE` successors |
| Markov.NextTableKeys | prefetcher/mp/mp.cc:60-76 | the lookahead adds exactly the current address as a key |
| Markov.NextTableRecordsSuccessor | prefetcher/mp/mp.cc:66-76 | a missed address gets an empty list; if the previous address has an entry, its list now starts with the current address, once |
| Markov.NextTableFrame | prefetcher/mp/mp.cc:57-80 | entries other than the previous and the current address are unchanged |
| Markov.MarkovPrefetcher.constructor | prefetcher/mp/mp.cc:53-54 | a value-initialised `mp`: `previous_vpn` 0 and an empty table |
| Markov.MarkovPrefetcher.InitiateLookahead | prefetcher/mp/mp.cc:57-80 | a hit issues the stored list, in order; a miss issues nothing; the table becomes `NextTable` of the old one; `previous_vpn` becomes `vpn` |
| Markov.MarkovPrefetcher.CacheOperate | prefetcher/mp/mp.cc:88-93 | returns 1 whatever `metadata_in` was; the requests carry metadata 1 and are the stored list of `addr` |
| DistancePrefetch.PageDistance | prefetcher/dp_slot_1/dp_slot_1.cc:64 | `(int64(vpn) - int64(previous_vpn)) >> LOG2_PAGE_SIZE` rounds down; for two lower-half addresses it is the page distance, floored |
| DistancePrefetch.LowHalfDifference | prefetcher/dp_slot_1/dp_slot_1.cc:64 | for two lower-half addresses the signed subtraction is exact |
| DistancePrefetch.Target | prefetcher/dp_slot_1/dp_slot_1.cc:41 | `vpn + (d << LOG2_PAGE_SIZE)` lies `d` pages away, modulo the page count, with the same page offset |
| DistancePrefetch.DistanceReplays | prefetcher/dp_slot_1/dp_slot_1.cc:41-64 | moving the earlier of two same-offset addresses by their distance gives the later one |
| DistancePrefetch.DpEntry.AccessDistance | prefetcher/dp_slot_1/dp_slot_1.cc:19-37 | with one slot, the list after `access_distance(d)` is exactly `[d]`; the tag is kept |
| DistancePrefetch.PrefetchSlot | prefetcher/dp_slot_1/dp_slot_1.cc:39-46 | one `prefetch_line(vpn + (d << LOG2_PAGE_SIZE), true, 1)` per listed distance, in order, and none during warmup |
| DistancePrefetch.NextTableEffect | prefetcher/dp_slot_1/dp_slot_1.cc:67-82 | the table stays well formed, gains exactly the current distance as a key, and the previous distance's list becomes `[distance]`; other entries are unchanged |
| DistancePrefetch.DistancePrefetcher.constructor | prefetcher/dp_slot_1/dp_slot_1.cc:57-59 | a value-initialised `dp`: both previous values 0 and an empty table |
| DistancePrefetch.DistancePrefetcher.InitiateLookahead | prefetcher/dp_slot_1/dp_slot_1.cc:62-87 | a hit on the distance issues its list as targets, unless warming up; a miss issues nothing; the table becomes `NextTable` of the old one; `previous_vpn` and `previous_distance` are updated |
| DistancePrefetch.DistancePrefetcher.CacheOperate | prefetcher/dp_slot_1/dp_slot_1.cc:95-99 | returns `metadata_in`; at most `SLOT_SIZE` requests, with the same contents and state as the lookahead |
| StrideRule.Next | prefetcher/asp/asp.cc:27-38 | a new IP gets stride 0 and state 0; otherwise the stride is the page difference modulo 2^64, and the state climbs by one up to 2 on a repeated non-zero stride and falls to 0 otherwise; states stay in {0, 1, 2} |
| StrideRule.SignedDifference | prefetcher/asp/asp.cc:32 | the `int64_t` difference of two `uint64_t` values is their difference modulo 2^64 |
| StrideRule.StrideBetween | prefetcher/asp/asp.cc:32 | two pages `s` apart measure stride `s` |
| StrideRule.RepeatedStride | prefetcher/asp/asp.cc:32 | an access `s` pages after the stored page stores stride `s` |
| StrideRule.ConstantStrideTrain | prefetcher/asp_ptempo/asp_ptempo.cc:31-40 | pages `v`, `v+s`, `v+2s`, `v+3s` give states 0, 0, 1, 2, with stride `s` from the second access on |
| StrideRule.NextKeepsWellFormed | prefetcher/asp/asp.cc:34-38 | storing the new entry keeps every entry under its own IP with its state in {0, 1, 2} |
| Asp.Delta | prefetcher/asp/asp.cc:40 | the delta is zero exactly when the state is 2 or the stride is 0, and is the stride otherwise |
| Asp.PrefetchAddress | prefetcher/asp/asp.cc:55 | `addr + (delta << LOG2_PAGE_SIZE)` is `delta` pages (read as signed) away, modulo the page count, with the same page offset |
| Asp.FirstAccessNoPrefetch | prefetcher/asp/asp.cc:27-40 | the first access of an IP has delta 0 |
| Asp.ConstantStrideDeltas | prefetcher/asp/asp.cc:25-42 | pages `v`, `v+s`, `v+2s`, `v+3s` give deltas 0, s, s, 0 |
| Asp.AspPrefetcher.constructor | prefetcher/asp/asp.cc:22 | an empty table |
| Asp.AspPrefetcher.InitiateLookahead | prefetcher/asp/asp.cc:25-42 | stores the entry `Next` computes under the IP and returns its delta |
| Asp.AspPrefetcher.CacheOperate | prefetcher/asp/asp.cc:50-59 | exactly one `prefetch_line(addr + stride pages, true, 1)` when the delta is non-zero, none otherwise; returns 1 |
| AspPtempo.Delta | prefetcher/asp_ptempo/asp_ptempo.cc:42 | the delta is non-zero exactly when the state is 2 and the stride is non-zero, and then it is the stride |
| AspPtempo.BlockOffset | prefetcher/asp_ptempo/asp_ptempo.cc:61 | the masked block number is below 64 and is the block index within the page |
| AspPtempo.BlockInPage | prefetcher/asp_ptempo/asp_ptempo.cc:61 | the block number modulo 64 equals the page offset divided by the block size |
| AspPtempo.PrefetchAddress | prefetcher/asp_ptempo/asp_ptempo.cc:65 | `addr + (delta << LOG2_PAGE_SIZE) + (offset << LOG2_BLOCK_SIZE)` is `addr` plus `delta` signed pages plus `offset` blocks, modulo 2^64 |
| AspPtempo.FirstAccessNoPrefetch | prefetcher/asp_ptempo/asp_ptempo.cc:29-42 | the first access of an IP has delta 0 |
| AspPtempo.ConstantStrideDeltas | prefetcher/asp_ptempo/asp_ptempo.cc:31-42 | pages `v`, `v+s`, `v+2s`, `v+3s` give deltas 0, 0, 0, s |
| AspPtempo.MaxElement | prefetcher/asp_ptempo/asp_ptempo.cc:48 | `std::max_element`: an index whose count is maximal, the lowest such |
| AspPtempo.AspPtempoPrefetcher.constructor | prefetcher/asp_ptempo/asp_ptempo.cc:23-24 | an empty table and a zeroed 64-entry histogram |
| AspPtempo.AspPtempoPrefetcher.InitiateLookahead | prefetcher/asp_ptempo/asp_ptempo.cc:27-44 | stores the entry `Next` computes under the IP and returns its delta; the histogram is untouched |
| AspPtempo.AspPtempoPrefetcher.OffsetCount | prefetcher/asp_ptempo/asp_ptempo.cc:45-50 | `counter[offset]` rises by exactly 1, the other 63 counters are unchanged, and the result is the lowest index of a maximal counter |
| AspPtempo.AspPtempoPrefetcher.CacheOperate | prefetcher/asp_ptempo/asp_ptempo.cc:58-72 | the table and the histogram are updated; one request to `addr` plus stride pages plus the most frequent offset, only when the delta is non-zero and not warming up; returns `metadata_in` |
| NextPage.CacheOperate | prefetcher/sp/sp.cc:6-16 | on a miss outside warmup, exactly one request one page ahead at the same offset, with `fill_this_level` true and metadata 1; otherwise none; returns `metadata_in` |
| NextPage.CacheFill | prefetcher/sp/sp.cc:18-21 | returns `metadata_in` unchanged |
| NextPageTlb.SecondShiftIsTwoPages | prefetcher/sp_tlb_cache/sp_tlb_cache.cc:16 | `1 << (12 + 12 / (6 + 3))` is two pages, because the division rounds down |
| NextPageTlb.CacheOperate | prefetcher/sp_tlb_cache/sp_tlb_cache.cc:6-21 | on a miss outside warmup, exactly two requests: one page ahead into this level with metadata 1, then two pages ahead into the lower level with metadata 11; otherwise none; returns `metadata_in` |
| AmpmLite.Constants | prefetcher/va_ampm_lite_tlb_cache/va_ampm_lite_tlb_cache.cc:30-31 | the bitmap size, the 2 MiB span shift and the block-group width are the expressions the source derives them from |
| AmpmLite.PageAndOffset | prefetcher/va_ampm_lite_tlb_cache/va_ampm_lite_tlb_cache.cc:43-48 | the offset is below 64, and page, offset and the byte in the block recombine to the address |
| AmpmLite.PtAndOffset | prefetcher/va_ampm_lite_tlb_cache/va_ampm_lite_tlb_cache.cc:51-58 | the offset is below 512, so it always indexes the bitmaps, and span, offset and the byte in the page recombine to the address |
| AmpmLite.SetBit | prefetcher/va_ampm_lite_tlb_cache/va_ampm_lite_tlb_cache.cc:131 | `bitset::set` turns on one bit of one map and changes no other bit, key or stamp |
| AmpmLite.FindMeaning | prefetcher/va_ampm_lite_tlb_cache/va_ampm_lite_tlb_cache.cc:63 | `std::find_if` by `vpn` returns the first matching region, and the end exactly when none matches |
| AmpmLite.Victim | prefetcher/va_ampm_lite_tlb_cache/va_ampm_lite_tlb_cache.cc:119 | `std::min_element` by `lru` returns the first region with the smallest stamp |
| AmpmLite.CheckClMeaning | prefetcher/va_ampm_lite_tlb_cache/va_ampm_lite_tlb_cache.cc:60-90 | `check_cl_access` is the access bit of the address's page in the first region keyed by its span, and false when no region is; `check_cl_prefetch` is the same for the prefetch bit |
| AmpmLite.GroupBase | prefetcher/va_ampm_lite_tlb_cache/va_ampm_lite_tlb_cache.cc:72 | `off - off % 8` is the 8-aligned group base holding `off`, inside the bitmap |
| AmpmLite.AccessImpliesGroupAccess | prefetcher/va_ampm_lite_tlb_cache/va_ampm_lite_tlb_cache.cc:60-82 | `check_cl_access` implies `check_cl_block_access` |
| AmpmLite.Allocate | prefetcher/va_ampm_lite_tlb_cache/va_ampm_lite_tlb_cache.cc:117-120 | the region with the smallest stamp becomes a fresh region stamped with the counter (line 37), the counter rises by 1, and nothing else changes |
| AmpmLite.MarkPrefetch | prefetcher/va_ampm_lite_tlb_cache/va_ampm_lite_tlb_cache.cc:146-155 | after the mark, the prefetch bit of the target's 4 KiB page entry is set, building the region if needed; the statistics are unchanged; every stamp is kept or is the counter's value |
| AmpmLite.MarkPrefetchEffect | prefetcher/va_ampm_lite_tlb_cache/va_ampm_lite_tlb_cache.cc:146-155 | the whole new table: a tracked target page gets only its prefetch bit set; an untracked one replaces the first region with the smallest stamp by a fresh region for that page, stamped with the counter, which advances, and then gets its bit; no other region changes |
| AmpmLite.DemandMarksAccess | prefetcher/va_ampm_lite_tlb_cache/va_ampm_lite_tlb_cache.cc:125-131 | after the demand step `check_cl_access` holds, only the demand region changed, and its stamp was not refreshed |
| AmpmLite.CommitKeepsStamps | prefetcher/va_ampm_lite_tlb_cache/va_ampm_lite_tlb_cache.cc:149-155 | marking an accepted prefetch keeps the stamps pairwise distinct and below the counter |
| AmpmLite.StepGuard | prefetcher/va_ampm_lite_tlb_cache/va_ampm_lite_tlb_cache.cc:140-156 | a step calls `prefetch_line` exactly when both steps behind were accessed, the step ahead was neither accessed nor prefetched, and the target is on another page; an accepted page prefetch sets the target's prefetch bit; otherwise nothing changes |
| AmpmLite.StepCalls | prefetcher/va_ampm_lite_tlb_cache/va_ampm_lite_tlb_cache.cc:143-157 | a step appends at most one call, of its search's kind and off the demand page, and counts it exactly when the cache accepts it |
| AmpmLite.StepTable | prefetcher/va_ampm_lite_tlb_cache/va_ampm_lite_tlb_cache.cc:140-181 | a step keeps the statistics and the region count, never moves the counter back, gives no region a stale stamp, keeps stamps distinct, and never changes the table in the block search |
| AmpmLite.SweepCalls | prefetcher/va_ampm_lite_tlb_cache/va_ampm_lite_tlb_cache.cc:134-182 | one direction only appends calls, at most one per remaining step, at most `PREFETCH_DEGREE - issued` of them accepted, each of its own kind and off the demand page |
| AmpmLite.SweepKeepsStats | prefetcher/va_ampm_lite_tlb_cache/va_ampm_lite_tlb_cache.cc:134-182 | the searches leave `at_hit` and `at_miss` alone and never move `region_lru` back |
| AmpmLite.SweepStampFresh | prefetcher/va_ampm_lite_tlb_cache/va_ampm_lite_tlb_cache.cc:151-152 | during a search a region keeps its stamp or gets one at least the counter's starting value |
| AmpmLite.SweepTable | prefetcher/va_ampm_lite_tlb_cache/va_ampm_lite_tlb_cache.cc:134-161 | one direction changes the table only as `Evolves` allows: same size and statistics, counter not back, stamps kept or fresh |
| AmpmLite.SweepBlockKeepsTable | prefetcher/va_ampm_lite_tlb_cache/va_ampm_lite_tlb_cache.cc:165-181 | the block search never changes the region table |
| AmpmLite.SweepStamps | prefetcher/va_ampm_lite_tlb_cache/va_ampm_lite_tlb_cache.cc:134-182 | the searches keep the stamps pairwise distinct and below the counter |
| AmpmLite.SweepExtends | prefetcher/va_ampm_lite_tlb_cache/va_ampm_lite_tlb_cache.cc:134-182 | one whole direction adds at most `MAX_DISTANCE` calls and at most `PREFETCH_DEGREE` accepted ones, all off the demand page, and keeps the statistics and the stamp invariant |
| AmpmLite.SearchesBounds | prefetcher/va_ampm_lite_tlb_cache/va_ampm_lite_tlb_cache.cc:134-182 | the four searches make at most 4 × 256 calls, at most 4 × 2 accepted, none on the demand page, and keep the statistics and the stamp invariant |
| AmpmLite.StepLeavesPage | prefetcher/va_ampm_lite_tlb_cache/va_ampm_lite_tlb_cache.cc:136-174 | the different-page guard always holds: every step target is on another page, with or without wrap-around |
| AmpmLite.OperateMissReplacesOldest | prefetcher/va_ampm_lite_tlb_cache/va_ampm_lite_tlb_cache.cc:117-122 | when no region matches, the oldest region is replaced by a fresh one for the span, stamped with the counter; the counter rises; the statistics are unchanged; nothing is issued |
| AmpmLite.OperateCountsDemand | prefetcher/va_ampm_lite_tlb_cache/va_ampm_lite_tlb_cache.cc:125-128 | when a region matches, exactly one of `at_hit` and `at_miss` rises by 1, and it is `at_hit` exactly when the page had been accessed |
| AmpmLite.OperateBounds | prefetcher/va_ampm_lite_tlb_cache/va_ampm_lite_tlb_cache.cc:134-184 | the table keeps `REGION_COUNT` regions; the calls are bounded as in `SearchesBounds`, none on the demand page; the stamps stay distinct and below the counter |
| AmpmLite.AmpmLitePrefetcher.constructor | prefetcher/va_ampm_lite_tlb_cache/va_ampm_lite_tlb_cache.cc:110 | `prefetcher_initialize` builds `region_type{}` (lines 36-39) 128 times: regions keyed 0 with empty maps, stamped in order from the counter, which rises by 128 |
| AmpmLite.AmpmLitePrefetcher.CheckClBlockAccess | prefetcher/va_ampm_lite_tlb_cache/va_ampm_lite_tlb_cache.cc:69-82 | true exactly when some access bit of the address's 8-aligned group is set in the region keyed by its span |
| AmpmLite.AmpmLitePrefetcher.CheckClBlockPrefetch | prefetcher/va_ampm_lite_tlb_cache/va_ampm_lite_tlb_cache.cc:93-106 | true exactly when some prefetch bit of the address's 8-aligned group is set in the region keyed by its span |
| AmpmLite.AmpmLitePrefetcher.AllocateRegion | prefetcher/va_ampm_lite_tlb_cache/va_ampm_lite_tlb_cache.cc:119-120 | overwrites the `std::min_element` region in place; the new state is `Allocate` of the old |
| AmpmLite.AmpmLitePrefetcher.RecordPrefetch | prefetcher/va_ampm_lite_tlb_cache/va_ampm_lite_tlb_cache.cc:146-155 | the new state is `MarkPrefetch` of the old, whose whole effect `MarkPrefetchEffect` states |
| AmpmLite.AmpmLitePrefetcher.PageSearchStep | prefetcher/va_ampm_lite_tlb_cache/va_ampm_lite_tlb_cache.cc:136-158 | continuing the page search from the new state and calls at step `i + 1` is the same as continuing it from the old state at step `i` |
| AmpmLite.AmpmLitePrefetcher.BlockSearchStep | prefetcher/va_ampm_lite_tlb_cache/va_ampm_lite_tlb_cache.cc:167-180 | the calls and the count are those of `Step` for the block search, and the table is unchanged |
| AmpmLite.AmpmLitePrefetcher.RunPageSweep | prefetcher/va_ampm_lite_tlb_cache/va_ampm_lite_tlb_cache.cc:135-160 | the loop leaves the state and calls of `Sweep` for the page search |
| AmpmLite.AmpmLitePrefetcher.RunBlockSweep | prefetcher/va_ampm_lite_tlb_cache/va_ampm_lite_tlb_cache.cc:166-181 | the loop leaves the calls of `Sweep` for the block search and changes nothing |
| AmpmLite.AmpmLitePrefetcher.CacheOperate | prefetcher/va_ampm_lite_tlb_cache/va_ampm_lite_tlb_cache.cc:112-185 | returns `metadata_in`; the new table, counter, statistics and calls are those of `Operate`, so every `Operate*` lemma applies to it |

## Left out

- `champsim::msl::lru_table` capacity and replacement: its header is not part of this model. The tables of `mp` (256 × 1), `dp` (64 × 1) and `asp` (64 × 4) are maps that never evict.
- `Markov.MarkovPrefetcher.InitiateLookahead`: a stored list is not lost to an eviction by the set-associative table, as described above.
- `DistancePrefetch.DistancePrefetcher.InitiateLookahead`: the same; no eviction.
- `Asp.AspPrefetcher.InitiateLookahead` and `AspPtempo.AspPtempoPrefetcher.InitiateLookahead`: the same; an IP's entry is never evicted, so the `ConstantStrideDeltas` lemmas assume the entry is retained.
- `CACHE::prefetch_line` is outside the plug-ins. Its calls are returned as `Request` sequences. For AMPM-lite its success is the oracle `accept`. The other plug-ins ignore its result.
- `warmup` and `cache_hit` are inputs. The cache state they come from is not modelled.
- The process-wide globals are one object per cache: the `std::map<CACHE*, …>` of each plug-in, and AMPM-lite's `region_type::region_lru`, `at_hit` and `at_miss`. With several caches the model does not capture that they share one counter. The constructor of `AmpmLitePrefetcher` takes the counter's current value as a parameter.
- `AmpmLite.AmpmLitePrefetcher.CacheOperate`: `region_lru`, `lru`, `at_hit` and `at_miss` are unbounded integers. The 64-bit wrap-around after 2^64 allocations or accesses is not modelled.
- Signed overflow: in C++17 the subtraction `static_cast<int64_t>(vpn) - static_cast<int64_t>(previous_vpn)` (`dp_slot_1.cc:63`, `asp.cc:32`, `asp_ptempo.cc:34`) is undefined behaviour when it overflows, and so is the left shift `d << LOG2_PAGE_SIZE` of a negative `int64_t` (`dp_slot_1.cc:41`). The model gives both two's-complement wrap-around (`AsSigned`, `Wrap64`).
- `AspPtempo.AspPtempoPrefetcher.OffsetCount`: the `uint64_t` counters are unbounded, so their wrap-around after 2^64 accesses to one offset is not modelled.
- `AmpmLite.AmpmLitePrefetcher.PageSearchStep`: its contract is the equation that advances the search by one step (`Sweep` from step `i + 1` equals `Sweep` from step `i`). Its effect on the table is stated through `Sweep`, `Step` and the lemmas about them, not separately.
- `AmpmLite.Step`, `AmpmLite.Sweep`, `AmpmLite.Searches` and `AmpmLite.Operate` are the specification of the searches. Their own contracts say only that the table keeps `REGION_COUNT` regions. What they mean is stated by the `Step*`, `Sweep*` and `Operate*` lemmas.
- `prefetcher_cache_fill`, `prefetcher_cycle_operate` and `prefetcher_final_stats` of the stateful plug-ins do nothing or only print. They return `metadata_in`, and only `NextPage.CacheFill` is modelled.
- Debug and statistics output is not modelled: `print_slot` (including its call on the Markov hit path), AMPM-lite's `print_stats`, and the printers in `src/plain_printer.cc` and `inc/stats_printer.h`.
- `inc/dram_controller.h` is not part of this model. It only declares the controller's records and constants; the bodies are in a file that is not available.
- `sp_tlb_cache.cc` as written does not compile. `NextPageTlb.CacheOperate` models the evident intent, not a program that can be built.
- `Markov.MpEntry.AccessVpn`: `lru_list` is a `std::list<int64_t>`. It only ever holds `uint64_t` addresses and hands them back as `prefetch_line` addresses, and the conversion is a bijection, so the model keeps the `uint64_t` values.
