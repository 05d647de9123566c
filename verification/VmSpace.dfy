/** `VmSpace`: an address space in which every area is one page. */
module VmSpaces {
  import opened PageTables
  import opened FlatMemory
  import opened MemorySets
  import opened Options

  datatype VmPerm = VmPerm(r: bool, w: bool, x: bool, u: bool)

  /** The permission bits of a page: always present and user, writable on W, executable on X. */
  function PermFlags(perm: VmPerm): Flags { Flags(true, perm.w, true, false, !perm.x) }

  /** W decides whether a page can be written, X whether it can be executed; the R and U permissions make no difference,
      and every page is a present user page. */
  lemma PermFlagsTell(p: VmPerm, q: VmPerm)
    ensures PermFlags(p).writable <==> p.w
    ensures PermFlags(p).noExecute <==> !p.x
    ensures PermFlags(p).present && PermFlags(p).user && !PermFlags(p).huge
    ensures PermFlags(p) == PermFlags(q) <==> p.w == q.w && p.x == q.x
  {
  }

  /** What the permissions let user code do. */
  function PermRights(perm: VmPerm): Option<Rights> { Some(Rights(perm.w, true, perm.x)) }

  datatype VmMapOptions = VmMapOptions(addr: Option<Vaddr>, perm: VmPerm, canOverwrite: bool)

  datatype MapResult = Mapped(addr: Vaddr) | InvalidArgs | MapPanics

  datatype RangeResult = Done | PageFault | RangePanics

  ghost predicate OnePageEach(areas: seq<MapArea>) { forall x | x in areas :: x.size == PAGE_SIZE }

  /** The first `n` pages from `start` on. */
  ghost function PageRange(start: Vaddr, n: nat): set<Vaddr> { set k | 0 <= k < n :: PageAt(start, k) }

  /** Where areas are single pages, the area keys are the mapped pages. */
  lemma KeysArePages(areas: seq<MapArea>, pages: Pages, va: Vaddr)
    requires AreasOk(areas) && PagesMatch(areas, pages) && OnePageEach(areas)
    ensures HasKey(areas, va) <==> va in pages
  {
    if va in pages {
      assert InSomeArea(areas, va);
      var x :| x in areas && Covers(x, va);
      assert x.startVa == va;
    }
    if HasKey(areas, va) {
      var x :| x in areas && x.startVa == va;
      assert x.mapper[0].va in pages;
    }
  }

  lemma RemoveOnePage(pages: Pages, area: MapArea)
    requires AreaOk(area) && area.size == PAGE_SIZE
    ensures |area.mapper| == 1 && RemovePages(pages, area, |area.mapper|) == pages - {area.startVa}
  {
    assert RemovePages(pages, area, 0) == pages;
  }

  lemma AddOnePage(pages: Pages, area: MapArea)
    requires AreaOk(area) && area.size == PAGE_SIZE
    ensures |area.mapper| == 1 && AddPages(pages, area, |area.mapper|) == pages[area.startVa := area.mapper[0].frame]
  {
    assert AddPages(pages, area, 0) == pages;
  }

  /** No page of the range is mapped after one that is not. */
  ghost predicate PrefixMapped(pages: Pages, start: Vaddr, n: nat) {
    forall i, j | 0 <= i <= j < n :: PageAt(start, j) in pages ==> PageAt(start, i) in pages
  }

  function PageAt(start: Vaddr, k: nat): Vaddr { start + k * PAGE_SIZE }

  /** Removing the run of mapped pages at the start of a range empties the range exactly when there are no others. */
  lemma RunIsAll(pages: Pages, start: Vaddr, n: nat, count: nat)
    requires n <= count && PageRange(start, n) <= pages.Keys && (n < count ==> PageAt(start, n) !in pages)
    ensures PageRange(start, count) !! (pages - PageRange(start, n)).Keys <==> PrefixMapped(pages, start, count)
  {
    var left := pages - PageRange(start, n);
    forall k | 0 <= k < n ensures PageAt(start, k) in pages { assert PageAt(start, k) in PageRange(start, n); }
    if PageRange(start, count) !! left.Keys {
      forall j | n <= j < count ensures PageAt(start, j) !in pages {
        assert PageAt(start, j) in PageRange(start, count);
        assert PageAt(start, j) !in PageRange(start, n);
      }
    }
    if PrefixMapped(pages, start, count) {
      forall v | v in PageRange(start, count) ensures v !in left {
        var k :| 0 <= k < count && v == PageAt(start, k);
        if k < n {
          assert v in PageRange(start, n);
        } else {
          assert PageAt(start, k) in pages ==> PageAt(start, n) in pages;
        }
      }
    }
  }

  /** A range of two pages of which only the second is mapped: the run at its start is empty, so that page stays. */
  lemma GapStaysMapped(start: Vaddr, frame: Paddr, n: nat)
    requires n <= 2 && PageRange(start, n) <= map[PageAt(start, 1) := frame].Keys
    ensures var pages: Pages := map[PageAt(start, 1) := frame];
            && n == 0 && PageAt(start, n) !in pages && !PrefixMapped(pages, start, 2)
            && PageAt(start, 1) in (pages - PageRange(start, n)) && PageAt(start, 1) in PageRange(start, 2)
  {
    var pages: Pages := map[PageAt(start, 1) := frame];
    assert PageAt(start, 0) !in pages && PageAt(start, 1) in pages;
    assert PageRange(start, n) == {};
  }

  /** `pages` with `frames` put in from `start` on. */
  function WithFrames(pages: Pages, start: Vaddr, frames: seq<Paddr>): Pages {
    if frames == [] then pages
    else WithFrames(pages, start, frames[..|frames| - 1])[PageAt(start, |frames| - 1) := frames[|frames| - 1]]
  }

  lemma {:induction false} WithFramesAt(pages: Pages, start: Vaddr, frames: seq<Paddr>)
    ensures forall k | 0 <= k < |frames| ::
              && PageAt(start, k) in WithFrames(pages, start, frames)
              && WithFrames(pages, start, frames)[PageAt(start, k)] == frames[k]
    ensures forall v | v !in PageRange(start, |frames|) ::
              && (v in WithFrames(pages, start, frames) <==> v in pages)
              && (v in pages ==> WithFrames(pages, start, frames)[v] == pages[v])
    ensures WithFrames(pages, start, frames).Keys == pages.Keys + PageRange(start, |frames|)
  {
    if frames != [] {
      var n := |frames| - 1;
      WithFramesAt(pages, start, frames[..n]);
      assert PageRange(start, |frames|) == PageRange(start, n) + {PageAt(start, n)} by {
        forall v | v in PageRange(start, |frames|) ensures v in PageRange(start, n) + {PageAt(start, n)} {
          var k :| 0 <= k < |frames| && v == PageAt(start, k);
        }
      }
    }
  }

  /** Mapped pages are aligned, so the start of a range that has just been mapped is. */
  lemma {:induction false} StartIsAligned(areas: seq<MapArea>, pages: Pages, before: Pages, start: Vaddr,
                                          frames: seq<Paddr>)
    requires PagesMatch(areas, pages) && pages == WithFrames(before, start, frames)
    ensures frames != [] ==> start % PAGE_SIZE == 0
  {
    WithFramesAt(before, start, frames);
    if frames != [] { assert PageAt(start, 0) in pages; }
  }

  /** Whether the pages of a range can be mapped afresh, after the unmapping that `canOverwrite` asks for. */
  ghost predicate Mappable(pages: Pages, start: Vaddr, n: nat, canOverwrite: bool) {
    if canOverwrite then PrefixMapped(pages, start, n) else PageRange(start, n) !! pages.Keys
  }

  /** Some page of the range has no table yet, and no frame is left to make one of. */
  ghost predicate StarvedIn(pt: PageTable, alloc: FrameAllocator, start: Vaddr, n: nat)
    reads pt, alloc
  {
    exists k :: 0 <= k < n && pt.Starved(PageAt(start, k), alloc)
  }

  /** Pages that are not in `gone` translate as before. */
  ghost predicate OthersKept(pt: PageTable, was: imap<Vaddr, Option<Pte>>, gone: set<Vaddr>)
    reads pt
  {
    pt.levels >= 1 && forall v: Vaddr | v < USER_TOP && PageBase(v) !in gone :: v in was && pt.Translation(v) == was[v]
  }

  /** Pages outside the range translate as before, and its first `k` pages to `frames` with `flags`. */
  ghost predicate RangeShows(pt: PageTable, was: imap<Vaddr, Option<Pte>>, start: Vaddr, frames: seq<Paddr>,
                             flags: Flags, k: nat)
    requires k <= |frames|
    reads pt
  {
    pt.levels >= 1 && forall v: Vaddr | v < USER_TOP ::
      v in was && ShowsIn(pt.Translation(v), was[v], start, frames, flags, k, v)
  }

  predicate ShowsIn(tr: Option<Pte>, was: Option<Pte>, start: Vaddr, frames: seq<Paddr>, flags: Flags, k: nat, v: Vaddr)
    requires k <= |frames|
  {
    && (start <= v < PageAt(start, k) ==> tr == Some(Pte(frames[(v - start) / PAGE_SIZE], flags)))
    && (v < start || v >= PageAt(start, |frames|) ==> tr == was)
  }

  /** The frames hold a page each and are in no other use. */
  ghost predicate Usable(frames: seq<Paddr>, bytes: map<Paddr, seq<Byte>>, taken: set<Paddr>) {
    forall k | 0 <= k < |frames| :: frames[k] in bytes && |bytes[frames[k]]| == PAGE_SIZE && frames[k] !in taken
  }

  /** No frame is given twice. */
  ghost predicate FreshFrames(frames: seq<Paddr>) {
    forall i, j {:trigger FramesDiffer(frames, i, j)} | 0 <= i < j < |frames| :: FramesDiffer(frames, i, j)
  }

  predicate FramesDiffer(frames: seq<Paddr>, i: nat, j: nat)
    requires i < |frames| && j < |frames|
  {
    frames[i] != frames[j]
  }

  class VmSpace {
    const ms: MemorySet

    ghost predicate Valid()
      reads this, ms, ms.pt, ms.alloc, ms.ram
    {
      ms.Valid() && OnePageEach(ms.areas)
    }

    /** Every frame in use, and every frame that may be handed out. */
    ghost function Taken(): set<Paddr>
      reads ms, ms.pt, ms.alloc
    {
      ms.pages.Values + ms.pt.mem.Keys + ms.alloc.free
    }

    /** `VmSpace::new`. */
    constructor (rootFrame: Paddr, kernelPtes: seq<(nat, Pte)>, alloc: FrameAllocator, ram: Ram)
      requires rootFrame !in alloc.free
      requires forall i | 0 <= i < |kernelPtes| :: 256 <= kernelPtes[i].0 < ENTRY_COUNT
      ensures Valid() && fresh(ms) && ms.pages == map[] && ms.alloc == alloc && ms.ram == ram
      ensures ms.pt.kernel == KernelOf(kernelPtes)
    {
      ms := new MemorySet(rootFrame, kernelPtes, alloc, ram);
    }

    method UnmapPage(va: Vaddr, ghost was: imap<Vaddr, Option<Pte>>, ghost gone: set<Vaddr>) returns (ok: bool)
      requires Valid() && OthersKept(ms.pt, was, gone)
      modifies ms`areas, ms`pages, ms.pt`mem, ms.pt`tables, ms.pt`tbl, ms.alloc
      ensures Valid() && ms.alloc.free == old(ms.alloc.free) && ms.pt.mem.Keys == old(ms.pt.mem.Keys)
      ensures ok <==> va in old(ms.pages)
      ensures ms.pages == old(ms.pages) - {va}
      ensures OthersKept(ms.pt, was, gone + {va})
    {
      ghost var areas := ms.areas;
      KeysArePages(areas, ms.pages, va);
      ghost var at: nat;
      ok, at := ms.Unmap(va);
      if ok {
        RemoveOnePage(old(ms.pages), areas[at]);
        CoversIsPage(areas[at]);
      }
    }

    /** `VmSpace::unmap`: it stops at the first page that is not mapped, so it empties the
        range exactly when no page of it is mapped after one that is not. */
    method Unmap(start: Vaddr, end: Vaddr) returns (r: RangeResult, ghost n: nat)
      requires Valid()
      modifies ms`areas, ms`pages, ms.pt`mem, ms.pt`tables, ms.pt`tbl, ms.alloc
      ensures Valid() && ms.alloc.free == old(ms.alloc.free) && ms.pt.mem.Keys == old(ms.pt.mem.Keys)
      ensures r == RangePanics <==> start % PAGE_SIZE != 0 || end % PAGE_SIZE != 0 || end < start
      ensures r == RangePanics ==> n == 0
      ensures ms.pages == old(ms.pages) - PageRange(start, n) && PageRange(start, n) <= old(ms.pages).Keys
      ensures r == PageFault ==> PageAt(start, n) < end && PageAt(start, n) !in old(ms.pages)
      ensures r == Done ==> PageAt(start, n) == end
      ensures forall v: Vaddr | v < USER_TOP && PageBase(v) !in PageRange(start, n) ::
                ms.pt.Translation(v) == old(ms.pt.Translation(v))
      ensures r != RangePanics ==> (PageRange(start, (end - start) / PAGE_SIZE) !! ms.pages.Keys
                                    <==> PrefixMapped(old(ms.pages), start, (end - start) / PAGE_SIZE))
    {
      n := 0;
      if start % PAGE_SIZE != 0 || end % PAGE_SIZE != 0 || end < start { return RangePanics, n; }
      ghost var was := imap v: Vaddr | v < USER_TOP :: ms.pt.Translation(v);
      r, n := UnmapPages(start, (end - start) / PAGE_SIZE, was);
      RunIsAll(old(ms.pages), start, n, (end - start) / PAGE_SIZE);
    }

    method UnmapPages(start: Vaddr, count: nat, ghost was: imap<Vaddr, Option<Pte>>)
      returns (r: RangeResult, ghost n: nat)
      requires Valid() && OthersKept(ms.pt, was, {})
      modifies ms`areas, ms`pages, ms.pt`mem, ms.pt`tables, ms.pt`tbl, ms.alloc
      ensures Valid() && ms.alloc.free == old(ms.alloc.free) && ms.pt.mem.Keys == old(ms.pt.mem.Keys)
      ensures n <= count && ms.pages == old(ms.pages) - PageRange(start, n) && PageRange(start, n) <= old(ms.pages).Keys
      ensures OthersKept(ms.pt, was, PageRange(start, n))
      ensures r == (if n < count then PageFault else Done) && (n < count ==> PageAt(start, n) !in old(ms.pages))
    {
      var va := start;
      n := 0;
      for i := 0 to count
        invariant va == PageAt(start, i) && n == i && Valid()
        invariant ms.alloc.free == old(ms.alloc.free) && ms.pt.mem.Keys == old(ms.pt.mem.Keys)
        invariant ms.pages == old(ms.pages) - PageRange(start, i) && PageRange(start, i) <= old(ms.pages).Keys
        invariant OthersKept(ms.pt, was, PageRange(start, i))
      {
        NextPage(start, i);
        var ok := UnmapPage(va, was, PageRange(start, i));
        if !ok { return PageFault, n; }
        va := va + PAGE_SIZE;
        n := n + 1;
      }
      return Done, n;
    }

    /** `VmSpace::map`; `MapPanics` stands for the panics of the code below it. */
    method Map(frames: seq<Paddr>, options: VmMapOptions) returns (r: MapResult)
      requires Valid() && Usable(frames, ms.ram.bytes, Taken()) && FreshFrames(frames)
      requires options.addr.Some? ==> PageAt(options.addr.value, |frames|) <= USER_TOP
      modifies ms`areas, ms`pages, ms.pt`mem, ms.pt`tables, ms.pt`tbl, ms.alloc
      ensures r == InvalidArgs <==> options.addr == None
      ensures r == InvalidArgs ==> Valid() && ms.pages == old(ms.pages)
      ensures r.Mapped? ==>
                var start := options.addr.value;
                && r.addr == start && Valid() && (frames != [] ==> start % PAGE_SIZE == 0)
                && Mappable(old(ms.pages), start, |frames|, options.canOverwrite)
                && ms.pages == WithFrames(old(ms.pages) - PageRange(start, |frames|), start, frames)
                && forall v: Vaddr | v < USER_TOP ::
                     ms.pt.Translation(v) == if start <= v < PageAt(start, |frames|)
                                             then Some(Pte(frames[(v - start) / PAGE_SIZE], PermFlags(options.perm)))
                                             else old(ms.pt.Translation(v))
      ensures r.Mapped? ==>
                var start := options.addr.value;
                forall v: Vaddr | v < USER_TOP ::
                  ms.pt.Allows(v) == if start <= v < PageAt(start, |frames|) then PermRights(options.perm)
                                     else old(ms.pt.Allows(v))
      ensures r == MapPanics ==>
                var start := options.addr.value;
                || start % PAGE_SIZE != 0 || StarvedIn(ms.pt, ms.alloc, start, |frames|)
                || !Mappable(old(ms.pages), start, |frames|, options.canOverwrite)
    {
      if options.addr == None { return InvalidArgs; }
      var start := options.addr.value;
      ms.pt.UserAllowsByEntry();
      ghost var was := imap v: Vaddr | v < USER_TOP :: ms.pt.Translation(v);
      if options.canOverwrite {
        r := Overwrite(frames, start, PermFlags(options.perm), was);
        if r == MapPanics { return; }
      } else {
        assert PageRange(start, |frames|) !! ms.pages.Keys ==> ms.pages - PageRange(start, |frames|) == ms.pages;
      }
      ghost var free := ms.pages;
      r := MapFrames(frames, start, PermFlags(options.perm), was);
      if r.Mapped? {
        StartIsAligned(ms.areas, ms.pages, free, start, frames);
        ms.pt.UserAllowsByEntry();
      }
    }

    /** The unmapping that `can_overwrite` asks for; its result is ignored. */
    method Overwrite(frames: seq<Paddr>, start: Vaddr, flags: Flags, ghost was: imap<Vaddr, Option<Pte>>)
      returns (r: MapResult)
      requires Valid() && Usable(frames, ms.ram.bytes, Taken()) && OthersKept(ms.pt, was, {})
      modifies ms`areas, ms`pages, ms.pt`mem, ms.pt`tables, ms.pt`tbl, ms.alloc
      ensures r == MapPanics <==> start % PAGE_SIZE != 0
      ensures r != MapPanics ==>
                && Valid() && Usable(frames, ms.ram.bytes, Taken()) && RangeShows(ms.pt, was, start, frames, flags, 0)
                && (PageRange(start, |frames|) !! ms.pages.Keys <==> PrefixMapped(old(ms.pages), start, |frames|))
                && (PageRange(start, |frames|) !! ms.pages.Keys ==>
                      ms.pages == old(ms.pages) - PageRange(start, |frames|))
    {
      var unmapped, _ := Unmap(start, start + |frames| * PAGE_SIZE);
      return if unmapped == RangePanics then MapPanics else Mapped(start);
    }

    method MapFrames(frames: seq<Paddr>, start: Vaddr, flags: Flags, ghost was: imap<Vaddr, Option<Pte>>)
      returns (r: MapResult)
      requires Valid() && Usable(frames, ms.ram.bytes, Taken()) && FreshFrames(frames)
      requires PageAt(start, |frames|) <= USER_TOP && flags.present
      requires RangeShows(ms.pt, was, start, frames, flags, 0)
      modifies ms`areas, ms`pages, ms.pt`mem, ms.pt`tables, ms.pt`tbl, ms.alloc
      ensures r == Mapped(start) || r == MapPanics
      ensures r == Mapped(start) ==>
                && Valid() && PageRange(start, |frames|) !! old(ms.pages).Keys
                && ms.pages == WithFrames(old(ms.pages), start, frames)
                && RangeShows(ms.pt, was, start, frames, flags, |frames|)
      ensures r == MapPanics ==>
                || start % PAGE_SIZE != 0 || StarvedIn(ms.pt, ms.alloc, start, |frames|)
                || !(PageRange(start, |frames|) !! old(ms.pages).Keys)
    {
      for k := 0 to |frames|
        invariant Valid() && Usable(frames[k..], ms.ram.bytes, Taken())
        invariant PageRange(start, k) !! old(ms.pages).Keys
        invariant ms.pages == WithFrames(old(ms.pages), start, frames[..k])
        invariant RangeShows(ms.pt, was, start, frames, flags, k)
      {
        WithFramesAt(old(ms.pages), start, frames[..k]);
        NextPage(start, k);
        var ok := MapFrame(frames, start, k, flags, was);
        if !ok {
          assert PageAt(start, k) in PageRange(start, |frames|);
          return MapPanics;
        }
        assert frames[..k + 1][..k] == frames[..k];
      }
      assert frames[..|frames|] == frames;
      return Mapped(start);
    }

    method MapFrame(frames: seq<Paddr>, start: Vaddr, k: nat, flags: Flags, ghost was: imap<Vaddr, Option<Pte>>)
      returns (ok: bool)
      requires k < |frames| && PageAt(start, |frames|) <= USER_TOP && flags.present && FreshFrames(frames)
      requires Valid() && Usable(frames[k..], ms.ram.bytes, Taken()) && RangeShows(ms.pt, was, start, frames, flags, k)
      modifies ms`areas, ms`pages, ms.pt`mem, ms.pt`tables, ms.pt`tbl, ms.alloc
      ensures ok ==>
                && Valid() && Usable(frames[k + 1..], ms.ram.bytes, Taken())
                && RangeShows(ms.pt, was, start, frames, flags, k + 1)
                && PageAt(start, k) !in old(ms.pages) && ms.pages == old(ms.pages)[PageAt(start, k) := frames[k]]
      ensures !ok ==>
                start % PAGE_SIZE != 0 || ms.pt.Starved(PageAt(start, k), ms.alloc) || PageAt(start, k) in old(ms.pages)
    {
      ghost var taken := Taken();
      assert frames[k..][0] == frames[k];
      ok := MapPage(start + k * PAGE_SIZE, frames[k], flags);
      if ok {
        StillUsable(frames, k, ms.ram.bytes, taken, Taken());
        ShowsNext(start, frames, flags, k);
      }
    }

    /** One round of the loop of `map`. */
    method MapPage(va: Vaddr, frame: Paddr, flags: Flags) returns (ok: bool)
      requires va + PAGE_SIZE <= USER_TOP && flags.present
      requires Valid() && Usable([frame], ms.ram.bytes, Taken())
      modifies ms`areas, ms`pages, ms.pt`mem, ms.pt`tables, ms.pt`tbl, ms.alloc
      ensures ok ==>
                && va % PAGE_SIZE == 0
                && Valid() && Taken() <= old(Taken()) + {frame}
                && va !in old(ms.pages) && ms.pages == old(ms.pages)[va := frame]
                && forall v: Vaddr | v < USER_TOP ::
                     ms.pt.Translation(v) == if PageBase(v) == va then Some(Pte(frame, flags))
                                             else old(ms.pt.Translation(v))
      ensures !ok ==> va % PAGE_SIZE != 0 || ms.pt.Starved(va, ms.alloc) || va in old(ms.pages)
    {
      var area := NewArea(va, PAGE_SIZE, flags, [frame]);
      if area.None? { return false; }
      AddOnePage(ms.pages, area.value);
      CoversIsPage(area.value);
      InsertMembers(ms.areas, area.value);
      OneSlot(area.value, frame, ms);
      ok := ms.Map(area.value);
      if ok {
        AddedValues(old(ms.pages), area.value);
        assert PageBase(va) == va && Covers(area.value, va);
      }
    }

    /** `VmSpace::protect`: it panics at the first page that is not mapped. The ends of the range are taken down to
        page boundaries, and the range resolves to the same one in the stretch of 2^48 addresses that starts at 0. */
    method Protect(start: Vaddr, end: Vaddr, perm: VmPerm) returns (r: RangeResult)
      requires Valid()
      modifies ms.pt`mem, ms.pt`tables, ms.pt`tbl, ms.alloc
      ensures Valid() && ms.alloc.free == old(ms.alloc.free)
      ensures r == Done || r == RangePanics
      ensures var base := start - Resolved(start);
              && (r == Done <==>
                    forall v: Vaddr | PageBase(start) <= v + base < PageBase(end) :: PageBase(v) in ms.pages)
              && (r == Done ==> forall v: Vaddr | v < USER_TOP ::
                    ms.pt.Translation(v) == if PageBase(start) <= v + base < PageBase(end)
                                            then Some(Pte(ms.pages[PageBase(v)], PermFlags(perm)))
                                            else old(ms.pt.Translation(v)))
              && (r == Done ==> forall v: Vaddr | v < USER_TOP ::
                    ms.pt.Allows(v) == if PageBase(start) <= v + base < PageBase(end) then PermRights(perm)
                                       else old(ms.pt.Allows(v)))
    {
      ghost var was := imap v: Vaddr | v < USER_TOP :: ms.pt.Translation(v);
      ghost var base := start - Resolved(start);
      StretchStarts(start, base);
      ghost var bad: Vaddr;
      ms.pt.UserAllowsByEntry();
      r, bad := ProtectPages(start / PAGE_SIZE, end / PAGE_SIZE, PermFlags(perm), was, PageBase(start) - base, base);
      ms.pt.UserAllowsByEntry();
      if r == RangePanics { assert PageBase(bad) == bad; }
    }

    /** The loop over the pages. The first one resolves to `lo`, and the one it panics at to `bad`. */
    method ProtectPages(first: nat, last: nat, flags: Flags, ghost was: imap<Vaddr, Option<Pte>>, ghost lo: Vaddr,
                        ghost base: nat)
      returns (r: RangeResult, ghost bad: Vaddr)
      requires Valid() && flags.present && base % VA_SPACE == 0 && lo + base == first * PAGE_SIZE && lo < VA_SPACE
      requires ProtectedTo(ms.pt, was, ms.pages, flags, lo, lo)
      modifies ms.pt`mem, ms.pt`tables, ms.pt`tbl, ms.alloc
      ensures Valid() && ms.alloc.free == old(ms.alloc.free)
      ensures r == Done || r == RangePanics
      ensures r == Done ==> ProtectedTo(ms.pt, was, ms.pages, flags, lo, Max(first, last) * PAGE_SIZE - base)
      ensures r == RangePanics ==>
                lo <= bad < last * PAGE_SIZE - base && bad % PAGE_SIZE == 0 && bad !in ms.pages
    {
      bad := lo;
      for idx := first to Max(first, last)
        invariant Valid() && ms.alloc.free == old(ms.alloc.free)
        invariant bad + base == idx * PAGE_SIZE && lo <= bad < VA_SPACE
        invariant ProtectedTo(ms.pt, was, ms.pages, flags, lo, bad)
      {
        var ok := ProtectPage(idx * PAGE_SIZE, flags, was, lo, base, bad);
        if !ok { return RangePanics, bad; }
        bad := bad + PAGE_SIZE;
      }
      return Done, bad;
    }

    method ProtectPage(va: Vaddr, flags: Flags, ghost was: imap<Vaddr, Option<Pte>>, ghost lo: Vaddr, ghost base: nat,
                       ghost v: Vaddr)
      returns (ok: bool)
      requires Valid() && va % PAGE_SIZE == 0 && base % VA_SPACE == 0 && va == base + v && flags.present
      requires lo <= v < VA_SPACE && ProtectedTo(ms.pt, was, ms.pages, flags, lo, v)
      modifies ms.pt`mem, ms.pt`tables, ms.pt`tbl, ms.alloc
      ensures Valid() && ms.alloc.free == old(ms.alloc.free)
      ensures v % PAGE_SIZE == 0 && (ok <==> v in ms.pages)
      ensures ok ==> v < USER_TOP && ProtectedTo(ms.pt, was, ms.pages, flags, lo, v + PAGE_SIZE)
    {
      ResolvesTo(va, base, v);
      ProtectedNext(ms.pages, flags, lo, v);
      PagesAreUser(ms.areas, ms.pages, v);
      KernelBitIsUpperHalf(va);
      ok := ms.Protect(va, flags);
    }
  }

  /** The start of the stretch of 2^48 addresses that an address is in. */
  lemma StretchStarts(start: Vaddr, base: nat)
    requires base == start - Resolved(start)
    ensures base % VA_SPACE == 0 && base % PAGE_SIZE == 0
    ensures base <= start / PAGE_SIZE * PAGE_SIZE <= start < base + VA_SPACE
  {
  }

  lemma ResolvesTo(va: Vaddr, base: nat, v: Vaddr)
    requires base % VA_SPACE == 0 && va == base + v && v < VA_SPACE && va % PAGE_SIZE == 0
    ensures Resolved(va) == v && PageBase(v) == v && v % PAGE_SIZE == 0
  {
  }

  lemma PagesAreUser(areas: seq<MapArea>, pages: Pages, va: Vaddr)
    requires AreasOk(areas) && PagesMatch(areas, pages)
    ensures va in pages ==> va < USER_TOP
  {
    if va in pages {
      assert InSomeArea(areas, va);
      var x :| x in areas && Covers(x, va);
    }
  }

  function Max(a: nat, b: nat): nat { if a < b then b else a }

  /** The pages from `start` up to `to` have the new flags and their old frames, and no other page has changed. */
  ghost predicate ProtectedTo(pt: PageTable, was: imap<Vaddr, Option<Pte>>, pages: Pages, flags: Flags, start: Vaddr,
                              to: Vaddr)
    reads pt
  {
    && pt.levels >= 1
    && (forall v: Vaddr | v < USER_TOP ::
          v in was && ProtectedAt(pt.Translation(v), was[v], pages, flags, start, to, v))
    && (forall v: Vaddr | start <= v < to :: PageBase(v) in pages)
  }

  ghost predicate ProtectedAt(tr: Option<Pte>, was: Option<Pte>, pages: Pages, flags: Flags, start: Vaddr, to: Vaddr,
                              v: Vaddr)
  {
    if start <= v < to then PageBase(v) in pages && tr == Some(Pte(pages[PageBase(v)], flags)) else tr == was
  }

  lemma ProtectedNext(pages: Pages, flags: Flags, start: Vaddr, va: Vaddr)
    requires va % PAGE_SIZE == 0 && start <= va
    ensures forall v: Vaddr | va <= v < va + PAGE_SIZE :: PageBase(v) == va
    ensures va in pages ==> forall tr, was, v {:trigger ProtectedAt(tr, was, pages, flags, start, va, v)} |
              ProtectedAt(tr, was, pages, flags, start, va, v) ::
              var tr' := if PageBase(v) == va then Some(Pte(pages[va], flags)) else tr;
              ProtectedAt(tr', was, pages, flags, start, va + PAGE_SIZE, v)
  {
  }

  lemma OneSlot(area: MapArea, frame: Paddr, ms: MemorySet)
    requires |area.mapper| == 1 && area.mapper[0].frame == frame
    requires frame in ms.ram.bytes && |ms.ram.bytes[frame]| == PAGE_SIZE
    ensures FrameSet(area) == {frame} && FramesOk(area, ms.ram.bytes)
  {
    assert FrameSet(area) == {frame} by { assert area.mapper[0].frame in FrameSet(area); }
  }

  lemma StillUsable(frames: seq<Paddr>, k: nat, bytes: map<Paddr, seq<Byte>>, taken: set<Paddr>, taken': set<Paddr>)
    requires k < |frames| && FreshFrames(frames) && Usable(frames[k..], bytes, taken) && taken' <= taken + {frames[k]}
    ensures Usable(frames[k + 1..], bytes, taken')
  {
    var rest := frames[k + 1..];
    forall i | 0 <= i < |rest| ensures rest[i] in bytes && |bytes[rest[i]]| == PAGE_SIZE && rest[i] !in taken' {
      assert rest[i] == frames[k..][i + 1];
      assert FramesDiffer(frames, k, k + 1 + i);
    }
  }

  lemma ShowsNext(start: Vaddr, frames: seq<Paddr>, flags: Flags, k: nat)
    requires start % PAGE_SIZE == 0 && k < |frames|
    ensures forall tr, was, v {:trigger ShowsIn(tr, was, start, frames, flags, k, v)} |
              ShowsIn(tr, was, start, frames, flags, k, v) ::
              var tr' := if PageBase(v) == PageAt(start, k) then Some(Pte(frames[k], flags)) else tr;
              ShowsIn(tr', was, start, frames, flags, k + 1, v)
  {
  }

  lemma CoversIsPage(area: MapArea)
    requires AreaOk(area) && area.size == PAGE_SIZE
    ensures forall v: Vaddr :: Covers(area, v) <==> PageBase(v) == area.startVa
  {
  }

  lemma NextPage(start: Vaddr, n: nat)
    ensures PageRange(start, n + 1) == PageRange(start, n) + {PageAt(start, n)}
    ensures PageAt(start, n) !in PageRange(start, n)
  {
    forall v | v in PageRange(start, n + 1) ensures v in PageRange(start, n) + {PageAt(start, n)} {
      var k :| 0 <= k < n + 1 && v == PageAt(start, k);
    }
    forall v | v in PageRange(start, n) + {PageAt(start, n)} ensures v in PageRange(start, n + 1) {
      if v in PageRange(start, n) {
        var k :| 0 <= k < n && v == PageAt(start, k);
      } else {
        assert v == PageAt(start, n);
      }
    }
  }
}
