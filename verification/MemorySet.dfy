/** `MemorySet`: the areas of an address space, the page table that mirrors them, and
    byte access to the memory behind them. */
module MemorySets {
  import opened PageTables
  import opened FlatMemory
  import opened Options

  /** The root entries that a list of kernel entries makes, one after the other. */
  function KernelOf(ptes: seq<(nat, Pte)>): map<nat, Pte> {
    if ptes == [] then map[]
    else KernelOf(ptes[..|ptes| - 1])[ptes[|ptes| - 1].0 := ptes[|ptes| - 1].1]
  }

  /** Only listed slots get an entry. */
  lemma {:induction false} KernelListed(ptes: seq<(nat, Pte)>, i: nat)
    ensures i in KernelOf(ptes) ==> exists k :: 0 <= k < |ptes| && ptes[k].0 == i
  {
    if ptes != [] && i != ptes[|ptes| - 1].0 {
      var front := ptes[..|ptes| - 1];
      KernelListed(front, i);
      if k :| 0 <= k < |front| && front[k].0 == i { assert ptes[k].0 == i; }
    }
  }

  /** Every listed slot gets an entry, which is the one listed last for it. */
  lemma {:induction false} KernelLast(ptes: seq<(nat, Pte)>, k: nat)
    requires k < |ptes| && forall j | k < j < |ptes| :: ptes[j].0 != ptes[k].0
    ensures ptes[k].0 in KernelOf(ptes) && KernelOf(ptes)[ptes[k].0] == ptes[k].1
  {
    if k < |ptes| - 1 { KernelLast(ptes[..|ptes| - 1], k); }
  }

  /** The loop of `MemorySet::new`. */
  method ShareKernel(table: PageTable, ptes: seq<(nat, Pte)>)
    requires table.Valid() && table.KernelHalf() && table.kernel == map[]
    requires forall i | 0 <= i < |ptes| :: 256 <= ptes[i].0 < ENTRY_COUNT
    requires forall k | 0 <= k < ENTRY_COUNT :: table.RootSlotFree(k)
    modifies table`mem, table`shared, table`kernel
    ensures table.Valid() && table.KernelHalf() && table.kernel == KernelOf(ptes)
    ensures table.mem.Keys == old(table.mem.Keys)
    ensures forall v: Vaddr | v < USER_TOP :: table.Translation(v) == old(table.Translation(v))
  {
    for i := 0 to |ptes|
      invariant table.Valid() && table.KernelHalf() && table.kernel == KernelOf(ptes[..i])
      invariant table.mem.Keys == old(table.mem.Keys)
      invariant forall k | 0 <= k < ENTRY_COUNT :: table.RootSlotFree(k)
      invariant forall v: Vaddr | v < USER_TOP :: table.Translation(v) == old(table.Translation(v))
    {
      assert ptes[..i + 1][..i] == ptes[..i];
      table.AddRootMapping(ptes[i].0, ptes[i].1);
      KernelBitIsUpperHalf(0);
      table.UserPages(0);
    }
    assert ptes[..|ptes|] == ptes;
  }

  class MemorySet {
    const pt: PageTable
    const alloc: FrameAllocator
    const ram: Ram
    var areas: seq<MapArea>
    ghost var pages: Pages

    /** Areas and page table agree on every user page, and no frame has two uses. */
    ghost predicate Valid()
      reads this, pt, alloc, ram
    {
      && pt.Valid() && pt.Disjoint(alloc) && pt.KernelHalf()
      && AreasOk(areas) && PagesMatch(areas, pages) && PagesBacked(pages, ram.bytes)
      && pages.Values !! alloc.free && pages.Values !! pt.mem.Keys
      && TableAgrees(pt, pages)
    }

    /** `MemorySet::new`: an empty table whose upper half is shared with the kernel. */
    constructor (rootFrame: Paddr, kernelPtes: seq<(nat, Pte)>, alloc: FrameAllocator, ram: Ram)
      requires rootFrame !in alloc.free
      requires forall i | 0 <= i < |kernelPtes| :: 256 <= kernelPtes[i].0 < ENTRY_COUNT
      ensures Valid() && fresh(pt) && areas == [] && pages == map[]
      ensures this.alloc == alloc && this.ram == ram && pt.root == rootFrame && pt.mem.Keys == {rootFrame}
      ensures pt.kernel == KernelOf(kernelPtes)
    {
      var table := new PageTable(4, rootFrame);
      ShareKernel(table, kernelPtes);
      this.pt, this.alloc, this.ram := table, alloc, ram;
      areas, pages := [], map[];
    }

    /** `read_bytes`: succeeds exactly when every byte is mapped, and then returns those bytes. */
    method ReadBytes(addr: Vaddr, n: nat) returns (ok: bool, data: seq<Byte>)
      requires Valid()
      ensures FlatHolds(pages, ram.bytes, addr, data)
      ensures ok ==> |data| == n && Flat(pages, ram.bytes, addr).Some?
      ensures !ok ==> (|data| < n || n == 0 == |data|) && Flat(pages, ram.bytes, addr + |data|) == None
    {
      data := [];
      var current := addr;
      for i := 0 to |areas|
        invariant current == addr + |data| && (|data| < n || n == 0 == |data|)
        invariant FlatHolds(pages, ram.bytes, addr, data)
        invariant forall j | 0 <= j < i :: !Covers(areas[j], current)
      {
        var area := areas[i];
        if Covers(area, current) {
          AreaIsFlat(areas, pages, ram.bytes, i);
          var len := Min(n - |data|, area.startVa + area.size - current);
          var piece := ReadData(area, ram, current, len);
          FlatHoldsMore(areas, pages, ram.bytes, addr, data, i, piece);
          data := data + piece;
          if |data| == n {
            if n > 0 { assert Flat(pages, ram.bytes, addr + 0) == Some(data[0]); }
            return true, data;
          }
          current := area.startVa + area.size;
          EndIsLater(areas, i);
        }
      }
      FlatNeedsArea(areas, pages, ram.bytes, current);
      return false, data;
    }

    /** `write_bytes`: writes the longest writable prefix, and succeeds exactly when that is everything. */
    method WriteBytes(addr: Vaddr, data: seq<Byte>) returns (ok: bool, ghost done: nat)
      requires Valid()
      modifies ram
      ensures Valid() && done <= |data|
      ensures FlatWritten(pages, old(ram.bytes), ram.bytes, addr, data[..done])
      ensures OnlyFrames(pages.Values, old(ram.bytes), ram.bytes)
      ensures AllWritable(areas, addr, addr + done)
      ensures ok ==> done == |data| && Writable(areas, addr)
      ensures !ok ==> (done < |data| || |data| == 0 == done) && !Writable(areas, addr + done)
    {
      var current, offset := addr, 0;
      done := 0;
      assert data[..0] == [];
      NothingFlatWritten(pages, ram.bytes, addr);
      for i := 0 to |areas|
        invariant current == addr + offset && done == offset && (offset < |data| || |data| == 0 == offset)
        invariant PagesBacked(pages, ram.bytes)
        invariant FlatWritten(pages, old(ram.bytes), ram.bytes, addr, data[..done])
        invariant OnlyFrames(pages.Values, old(ram.bytes), ram.bytes)
        invariant AllWritable(areas, addr, addr + done)
        invariant forall j | 0 <= j < i :: !Covers(areas[j], current)
      {
        var area := areas[i];
        if Covers(area, current) {
          OnlyOneArea(areas, i, current);
          if !area.flags.writable { return false, done; }
          var len := WriteNext(i, addr, data, offset, old(ram.bytes));
          offset := offset + len;
          done := offset;
          if offset == |data| { return true, done; }
          current := area.startVa + area.size;
          EndIsLater(areas, i);
        }
      }
      return false, done;
    }

    /** What `write_bytes` does in one area, on top of what it has written since `before`. */
    method WriteNext(i: nat, addr: Vaddr, data: seq<Byte>, offset: nat, ghost before: map<Paddr, seq<Byte>>)
      returns (len: nat)
      requires AreasOk(areas) && PagesMatch(areas, pages) && PagesBacked(pages, ram.bytes)
      requires i < |areas| && areas[i].flags.writable && Covers(areas[i], addr + offset) && offset <= |data|
      requires FlatWritten(pages, before, ram.bytes, addr, data[..offset])
      requires OnlyFrames(pages.Values, before, ram.bytes)
      requires AllWritable(areas, addr, addr + offset)
      modifies ram
      ensures len == Min(|data| - offset, areas[i].startVa + areas[i].size - (addr + offset))
      ensures PagesBacked(pages, ram.bytes) && OnlyFrames(pages.Values, before, ram.bytes)
      ensures FlatWritten(pages, before, ram.bytes, addr, data[..offset + len])
      ensures AllWritable(areas, addr, addr + offset + len)
    {
      len := Min(|data| - offset, areas[i].startVa + areas[i].size - (addr + offset));
      ghost var mid := ram.bytes;
      WriteArea(i, addr + offset, data[offset..offset + len]);
      FlatWrittenMore(pages, before, mid, ram.bytes, addr, data, offset, len);
      AllWritableMore(areas, i, addr, addr + offset, addr + offset + len);
    }

    method WriteArea(i: nat, addr: Vaddr, data: seq<Byte>)
      requires AreasOk(areas) && PagesMatch(areas, pages) && PagesBacked(pages, ram.bytes)
      requires i < |areas| && Covers(areas[i], addr) && addr + |data| <= areas[i].startVa + areas[i].size
      modifies ram
      ensures PagesBacked(pages, ram.bytes) && OnlyFrames(pages.Values, old(ram.bytes), ram.bytes)
      ensures FlatWritten(pages, old(ram.bytes), ram.bytes, addr, data)
    {
      ghost var before := ram.bytes;
      AreaIsFlat(areas, pages, before, i);
      WriteData(areas[i], ram, addr, data);
      WriteKeepsBacked(areas, pages, before, ram.bytes, i, addr, data);
      WriteStaysInPages(areas, pages, before, ram.bytes, i, addr, data);
      forall a: Vaddr
        ensures Flat(pages, ram.bytes, a) == if addr <= a < addr + |data| then Some(data[a - addr])
                                             else Flat(pages, before, a)
      {
        AreaWriteIsFlatWrite(areas, pages, before, ram.bytes, i, addr, data, a);
      }
    }

    /** `MemorySet::map`; `false` stands for a panic. The code has no overlap check of its own:
        the page table refuses a page that is mapped already, and that is a panic. */
    method Map(area: MapArea) returns (ok: bool)
      requires Valid() && (area.size == 0 || AreaOk(area)) && area.flags.present
      requires FramesOk(area, ram.bytes) && FramesUnused(area, pages, pt.mem.Keys + alloc.free)
      modifies this`areas, this`pages, pt`mem, pt`tables, pt`tbl, alloc
      ensures ok ==> Valid() && alloc.free <= old(alloc.free) && pt.mem.Keys <= old(pt.mem.Keys) + old(alloc.free)
      ensures ok && area.size > 0 ==>
                && areas == InsertArea(old(areas), area)
                && pages == AddPages(old(pages), area, |area.mapper|)
                && (forall a: Vaddr | Covers(area, a) :: Flat(old(pages), ram.bytes, a) == None)
                && (forall v: Vaddr | v < USER_TOP ::
                      Shows(pt.Translation(v), old(pt.Translation(v)), area, |area.mapper|, v))
      ensures ok && area.size == 0 ==> areas == old(areas) && pages == old(pages)
      ensures !ok ==> Starved(pt, alloc, area) || Occupied(area, old(pages))
    {
      if area.size == 0 { return true; }
      if HasKey(areas, area.startVa) {
        KeyIsMapped(areas, pages, area);
        return false;
      }
      areas := InsertArea(areas, area);
      ghost var was := imap v: Vaddr | v < USER_TOP :: pt.Translation(v);
      ok := MapSlots(pt, alloc, area, pages, was);
      if ok {
        pages := AddPages(pages, area, |area.mapper|);
        AreaAdded(old(areas), old(pages), ram.bytes, area);
        AddedValues(old(pages), area);
      }
    }

    /** `MemorySet::unmap`: none of its `unwrap`s can fail. */
    method Unmap(va: Vaddr) returns (ok: bool, ghost at: nat)
      requires Valid()
      modifies this`areas, this`pages, pt`mem, pt`tables, pt`tbl, alloc
      ensures Valid() && alloc.free == old(alloc.free) && pt.mem.Keys == old(pt.mem.Keys)
      ensures ok <==> HasKey(old(areas), va)
      ensures !ok ==> areas == old(areas) && pages == old(pages) && unchanged(pt)
      ensures ok ==>
                && at < |old(areas)| && old(areas)[at].startVa == va
                && areas == old(areas)[..at] + old(areas)[at + 1..]
                && pages == RemovePages(old(pages), old(areas)[at], |old(areas)[at].mapper|)
                && AreaOk(old(areas)[at])
                && (forall v: Vaddr | v < USER_TOP ::
                      pt.Translation(v) == if Covers(old(areas)[at], v) then None else old(pt.Translation(v)))
    {
      var i := 0;
      while i < |areas| && areas[i].startVa != va
        invariant 0 <= i <= |areas| && !HasKey(areas[..i], va)
      {
        assert areas[..i + 1] == areas[..i] + [areas[i]];
        i := i + 1;
      }
      if i == |areas| {
        assert areas[..i] == areas;
        return false, 0;
      }
      var area := areas[i];
      areas := areas[..i] + areas[i + 1..];
      UnmapSlots(pt, alloc, area, pages);
      pages := RemovePages(pages, area, |area.mapper|);
      AreaRemoved(old(areas), old(pages), ram.bytes, i);
      RemovedValues(old(pages), area);
      return true, i;
    }

    /** `MemorySet::clear`: none of its `unwrap`s can fail. */
    method Clear()
      requires Valid()
      modifies this`areas, this`pages, pt`mem, pt`tables, pt`tbl, alloc
      ensures Valid() && areas == [] && pages == map[] && alloc.free == old(alloc.free)
    {
      assert areas[0..] == areas;
      for i := 0 to |areas|
        invariant pt.Valid() && pt.Disjoint(alloc) && alloc.free == old(alloc.free) && pt.mem.Keys == old(pt.mem.Keys)
        invariant areas == old(areas) && AreasOk(areas[i..]) && PagesMatch(areas[i..], pages)
        invariant PagesBacked(pages, ram.bytes) && pages.Values <= old(pages.Values) && TableAgrees(pt, pages)
      {
        ClearArea(areas[i], areas[i..], areas[i + 1..]);
      }
      assert pages == map[] by {
        forall v ensures v !in pages { assert !InSomeArea(areas[|areas|..], v); }
      }
      areas := [];
    }

    /** What `clear` does to the first of the areas that are left. */
    method ClearArea(area: MapArea, ghost left: seq<MapArea>, ghost rest: seq<MapArea>)
      requires pt.Valid() && pt.Disjoint(alloc) && pt.KernelHalf() && TableAgrees(pt, pages)
      requires left == [area] + rest && AreasOk(left) && PagesMatch(left, pages) && PagesBacked(pages, ram.bytes)
      modifies this`pages, pt`mem, pt`tables, pt`tbl, alloc
      ensures pt.Valid() && pt.Disjoint(alloc) && alloc.free == old(alloc.free) && pt.mem.Keys == old(pt.mem.Keys)
      ensures AreasOk(rest) && PagesMatch(rest, pages) && PagesBacked(pages, ram.bytes)
      ensures pages.Values <= old(pages.Values) && TableAgrees(pt, pages)
    {
      assert left[0] == area && area in left && left[..0] + left[1..] == rest;
      UnmapSlots(pt, alloc, area, pages);
      AreaRemoved(left, pages, ram.bytes, 0);
      RemovedValues(pages, area);
      pages := RemovePages(pages, area, |area.mapper|);
    }

    /** `MemorySet::protect`: only the page table learns the new flags; `false` stands for a panic. Flags that are not
        present take the page out of the page table, which then no longer agrees with the areas. */
    method Protect(addr: Vaddr, flags: Flags) returns (ok: bool)
      requires Valid()
      modifies pt`mem, pt`tables, pt`tbl, alloc
      ensures (flags.present || !ok ==> Valid()) && alloc.free == old(alloc.free)
      ensures ok <==> !IsKernelVaddr(addr) && PageBase(Resolved(addr)) in pages
      ensures forall v: Vaddr | v < USER_TOP ::
                pt.Translation(v) == if ok && PageBase(v) == PageBase(Resolved(addr))
                                     then Shown(Pte(pages[PageBase(Resolved(addr))], flags))
                                     else old(pt.Translation(v))
    {
      KernelBitIsUpperHalf(addr);
      if !IsKernelVaddr(addr) {
        pt.Resolves(addr);
        assert Agree(pt.Translation(Resolved(addr)), pages, Resolved(addr));
      }
      var r, _ := pt.Protect(addr, flags, alloc);
      return r == Ok;
    }

    /** `MemorySet::clone`; `None` stands for the panic when frames run out. */
    method Clone(kernelPtes: seq<(nat, Pte)>) returns (r: Option<MemorySet>)
      requires Valid() && forall x | x in areas :: x.flags.present
      requires forall i | 0 <= i < |kernelPtes| :: 256 <= kernelPtes[i].0 < ENTRY_COUNT
      modifies alloc, ram
      ensures r.None? ==> alloc.free == {}
      ensures r.Some? ==> Valid() && forall a: Vaddr :: Flat(pages, ram.bytes, a) == old(Flat(pages, ram.bytes, a))
      ensures r.Some? ==>
                var ms := r.value;
                && fresh(ms) && fresh(ms.pt) && ms.Valid() && ms.alloc == alloc && ms.ram == ram
                && ms.pt.kernel == KernelOf(kernelPtes)
                && Twins(areas, ms.areas, ram.bytes)
                && ms.pages.Values <= old(alloc.free) && ms.pages.Values !! pages.Values
                && ms.pt.mem.Keys <= old(alloc.free) && ms.pt.mem.Keys !! pages.Values && ms.pt.mem.Keys !! pt.mem.Keys
                && forall a: Vaddr :: Flat(ms.pages, ram.bytes, a) == Flat(pages, ram.bytes, a)
    {
      var root := alloc.AllocSingle();
      if root.None? { return None; }
      var ms := new MemorySet(root.value, kernelPtes, alloc, ram);
      ghost var free, before := old(alloc.free), old(ram.bytes);
      var ok := CloneAreas(ms, free, before);
      if !ok { return None; }
      KeptMemory(pages, free, before, ram.bytes);
      forall a: Vaddr ensures Flat(ms.pages, ram.bytes, a) == Flat(pages, ram.bytes, a) {
        TwinsSameFlat(areas, pages, ms.areas, ms.pages, ram.bytes, a);
      }
      return Some(ms);
    }

    /** The loop of `clone`. */
    method CloneAreas(ms: MemorySet, ghost free: set<Paddr>, ghost before: map<Paddr, seq<Byte>>) returns (ok: bool)
      requires ms != this && ms.pt != pt && ms.alloc == alloc && ms.ram == ram && ms.areas == []
      requires AreasOk(areas) && PagesMatch(areas, pages) && PagesBacked(pages, before) && pages.Values !! free
      requires forall x | x in areas :: x.flags.present
      requires ms.Valid() && alloc.free <= free && ms.pages.Values <= free && KeptOutside(free, before, ram.bytes)
      requires ms.pt.mem.Keys <= free
      modifies alloc, ram, ms`areas, ms`pages, ms.pt`mem, ms.pt`tables, ms.pt`tbl
      ensures !ok ==> alloc.free == {}
      ensures ok ==> ms.Valid() && alloc.free <= free && ms.pages.Values <= free && KeptOutside(free, before, ram.bytes)
      ensures ok ==> ms.pt.mem.Keys <= free && Twins(areas, ms.areas, ram.bytes)
    {
      for i := 0 to |areas|
        invariant ms.Valid() && alloc.free <= free && ms.pages.Values <= free && ms.pt.mem.Keys <= free
        invariant KeptOutside(free, before, ram.bytes) && Twins(areas[..i], ms.areas, ram.bytes)
      {
        ok := CloneNext(ms, i, free, before);
        if !ok { return false; }
      }
      assert areas[..|areas|] == areas;
      return true;
    }

    /** The next area of `clone`, on top of what it has copied since `free` and `before`. */
    method CloneNext(ms: MemorySet, i: nat, ghost free: set<Paddr>, ghost before: map<Paddr, seq<Byte>>)
      returns (ok: bool)
      requires ms != this && ms.pt != pt && ms.alloc == alloc && ms.ram == ram
      requires AreasOk(areas) && PagesMatch(areas, pages) && PagesBacked(pages, before) && pages.Values !! free
      requires i < |areas| && areas[i].flags.present
      requires ms.Valid() && alloc.free <= free && ms.pages.Values <= free && KeptOutside(free, before, ram.bytes)
      requires ms.pt.mem.Keys <= free && Twins(areas[..i], ms.areas, ram.bytes)
      modifies alloc, ram, ms`areas, ms`pages, ms.pt`mem, ms.pt`tables, ms.pt`tbl
      ensures !ok ==> alloc.free == {}
      ensures ok ==> ms.Valid() && alloc.free <= free && ms.pages.Values <= free && KeptOutside(free, before, ram.bytes)
      ensures ok ==> ms.pt.mem.Keys <= free && Twins(areas[..i + 1], ms.areas, ram.bytes)
    {
      var copy := CopyNext(ms, i, free, before);
      if copy.None? { return false; }
      TwinsMore(areas, i, ms.areas, copy.value, ram.bytes);
      ok := ms.MapLast(copy.value);
    }

    /** `map` for an area beyond all others can only fail for lack of frames. */
    method MapLast(area: MapArea) returns (ok: bool)
      requires Valid() && AreaOk(area) && area.flags.present
      requires FramesOk(area, ram.bytes) && FramesUnused(area, pages, pt.mem.Keys + alloc.free)
      requires InsertArea(areas, area) == areas + [area] && forall a: Vaddr | Covers(area, a) :: PageBase(a) !in pages
      modifies this`areas, this`pages, pt`mem, pt`tables, pt`tbl, alloc
      ensures !ok ==> alloc.free == {}
      ensures ok ==> Valid() && alloc.free <= old(alloc.free) && pt.mem.Keys <= old(pt.mem.Keys) + old(alloc.free)
      ensures ok ==> areas == old(areas) + [area] && pages.Values <= old(pages).Values + FrameSet(area)
    {
      ok := Map(area);
      AddedValues(old(pages), area);
    }

    /** The copying half of `CloneNext`. */
    method CopyNext(ms: MemorySet, i: nat, ghost free: set<Paddr>, ghost before: map<Paddr, seq<Byte>>)
      returns (r: Option<MapArea>)
      requires ms != this && ms.pt != pt && ms.alloc == alloc && ms.ram == ram
      requires AreasOk(areas) && PagesMatch(areas, pages) && PagesBacked(pages, before) && pages.Values !! free
      requires i < |areas|
      requires ms.Valid() && alloc.free <= free && KeptOutside(free, before, ram.bytes)
      requires Twins(areas[..i], ms.areas, ram.bytes)
      modifies alloc, ram
      ensures r.None? ==> alloc.free == {}
      ensures alloc.free <= free && KeptOutside(free, before, ram.bytes)
      ensures r.Some? ==>
                && ms.Valid() && Twins(areas[..i], ms.areas, ram.bytes) && Twin(areas[i], r.value, ram.bytes)
                && AreaOk(r.value) && FramesOk(r.value, ram.bytes)
                && InsertArea(ms.areas, r.value) == ms.areas + [r.value]
                && FramesUnused(r.value, ms.pages, ms.pt.mem.Keys + alloc.free) && FrameSet(r.value) <= free
                && forall a: Vaddr | Covers(r.value, a) :: PageBase(a) !in ms.pages
    {
      ghost var free0, bytes0 := alloc.free, ram.bytes;
      KeptMemory(pages, free, before, ram.bytes);
      AreaFrames(areas, pages, ram.bytes, i);
      r := CloneArea(areas[i], alloc, ram);
      if r.Some? {
        KeptMemory(ms.pages, free0, bytes0, ram.bytes);
        KeptTwins(areas, i, pages, ms.areas, ms.pages, free0, bytes0, ram.bytes);
        CopyIsLast(areas, i, ms.areas, ms.pages, r.value, ram.bytes);
      }
    }
  }

  /** Two memory sets with separate frames, such as an original and its clone: writing through one does not show
      through the other, and keeps both valid. */
  method WriteBesides(ms: MemorySet, other: MemorySet, addr: Vaddr, data: seq<Byte>) returns (ok: bool, ghost done: nat)
    requires ms.Valid() && other.Valid() && ms.ram == other.ram && ms.pages.Values !! other.pages.Values
    modifies ms.ram
    ensures ms.Valid() && other.Valid() && done <= |data|
    ensures FlatWritten(ms.pages, old(ms.ram.bytes), ms.ram.bytes, addr, data[..done])
    ensures ok <==> done == |data| && Writable(ms.areas, addr)
    ensures !ok ==> !Writable(ms.areas, addr + done)
    ensures forall a: Vaddr :: Flat(other.pages, other.ram.bytes, a) == old(Flat(other.pages, other.ram.bytes, a))
  {
    ghost var before := ms.ram.bytes;
    ok, done := ms.WriteBytes(addr, data);
    OtherStaysBacked(ms.pages.Values, other.pages, before, ms.ram.bytes);
    forall a: Vaddr ensures Flat(other.pages, ms.ram.bytes, a) == Flat(other.pages, before, a) {
      SeparateFramesSeparateMemory(ms.pages, other.pages, before, ms.ram.bytes, a);
    }
  }

  lemma OtherStaysBacked(frames: set<Paddr>, pages: Pages, before: map<Paddr, seq<Byte>>, after: map<Paddr, seq<Byte>>)
    requires PagesBacked(pages, before) && OnlyFrames(frames, before, after) && frames !! pages.Values
    ensures PagesBacked(pages, after)
  {
    forall v | v in pages ensures pages[v] in after && after[pages[v]] == before[pages[v]] {
      assert pages[v] in pages.Values;
    }
    forall v, w | v in pages && w in pages ensures PagesApart(pages, v, w) {}
  }

  ghost predicate OnlyFrames(frames: set<Paddr>, before: map<Paddr, seq<Byte>>, after: map<Paddr, seq<Byte>>) {
    after.Keys == before.Keys && forall f | f in before && f !in frames :: after[f] == before[f]
  }

  lemma WriteStaysInPages(areas: seq<MapArea>, pages: Pages, before: map<Paddr, seq<Byte>>,
                          after: map<Paddr, seq<Byte>>, i: nat, addr: Vaddr, data: seq<Byte>)
    requires AreasOk(areas) && PagesMatch(areas, pages) && i < |areas|
    requires FramesOk(areas[i], before) && AreaWritten(areas[i], before, after, addr, data)
    ensures OnlyFrames(pages.Values, before, after)
  {
    var x := areas[i];
    forall k | 0 <= k < |x.mapper| ensures x.mapper[k].frame in pages.Values { assert x in areas; }
    forall f | f in before && f !in pages.Values ensures after[f] == before[f] {
      assert !HasFrame(x, f);
    }
  }

  ghost predicate TableAgrees(pt: PageTable, pages: Pages)
    reads pt
  {
    pt.levels >= 1 && forall v: Vaddr | v < USER_TOP :: Agree(pt.Translation(v), pages, v)
  }

  /** The page table translates a page exactly when the areas have it, and to the same frame. */
  ghost predicate Agree(tr: Option<Pte>, pages: Pages, v: Vaddr) {
    && (tr.Some? <==> PageBase(v) in pages)
    && (tr.Some? ==> tr.value.paddr == pages[PageBase(v)])
  }

  predicate HasKey(areas: seq<MapArea>, va: Vaddr) { exists x :: x in areas && x.startVa == va }

  function InsertArea(areas: seq<MapArea>, area: MapArea): seq<MapArea> {
    if areas == [] || area.startVa < areas[0].startVa then [area] + areas
    else [areas[0]] + InsertArea(areas[1..], area)
  }

  function AddPages(pages: Pages, area: MapArea, n: nat): Pages
    requires n <= |area.mapper|
  {
    if n == 0 then pages else AddPages(pages, area, n - 1)[area.mapper[n - 1].va := area.mapper[n - 1].frame]
  }

  function RemovePages(pages: Pages, area: MapArea, n: nat): Pages
    requires n <= |area.mapper|
  {
    if n == 0 then pages else RemovePages(pages, area, n - 1) - {area.mapper[n - 1].va}
  }

  function FrameSet(area: MapArea): set<Paddr> { set k | 0 <= k < |area.mapper| :: area.mapper[k].frame }

  /** Some page of the area is mapped already. */
  ghost predicate Occupied(area: MapArea, pages: Pages) { exists a: Vaddr :: Covers(area, a) && PageBase(a) in pages }

  /** Some page of the area has no table yet, and no frame is left to make one of. */
  ghost predicate Starved(pt: PageTable, alloc: FrameAllocator, area: MapArea)
    reads pt, alloc
  {
    exists k :: 0 <= k < |area.mapper| && pt.Starved(area.mapper[k].va, alloc)
  }

  /** The frames of a new area are in no other use. */
  ghost predicate FramesUnused(area: MapArea, pages: Pages, taken: set<Paddr>) {
    FrameSet(area) !! taken && FrameSet(area) !! pages.Values
  }

  method MapPage(pt: PageTable, alloc: FrameAllocator, va: Vaddr, frame: Paddr, flags: Flags, ghost pages: Pages)
    returns (ok: bool)
    requires va < USER_TOP && PageBase(va) == va && !IsKernelVaddr(va) && flags.present
    requires pt.Valid() && pt.Disjoint(alloc) && pt.KernelHalf() && TableAgrees(pt, pages)
    modifies pt`mem, pt`tables, pt`tbl, alloc
    ensures pt.Valid() && pt.Disjoint(alloc) && alloc.free <= old(alloc.free)
    ensures pt.mem.Keys <= old(pt.mem.Keys) + old(alloc.free)
    ensures ok ==> va !in pages && TableAgrees(pt, pages[va := frame])
    ensures ok ==> forall v: Vaddr | v < USER_TOP ::
              pt.Translation(v) == if PageBase(v) == va then Some(Pte(frame, flags)) else old(pt.Translation(v))
    ensures !ok ==> pt.Starved(va, alloc) || va in pages
  {
    assert Agree(pt.Translation(va), pages, va);
    var r := pt.Map(va, frame, flags, alloc);
    return r == Ok;
  }

  method UnmapPage(pt: PageTable, alloc: FrameAllocator, va: Vaddr, ghost pages: Pages)
    requires va < USER_TOP && PageBase(va) == va && !IsKernelVaddr(va) && va in pages
    requires pt.Valid() && pt.Disjoint(alloc) && pt.KernelHalf() && TableAgrees(pt, pages)
    modifies pt`mem, pt`tables, pt`tbl, alloc
    ensures pt.Valid() && pt.Disjoint(alloc) && alloc.free == old(alloc.free) && pt.mem.Keys == old(pt.mem.Keys)
    ensures TableAgrees(pt, pages - {va})
    ensures forall v: Vaddr | v < USER_TOP ::
              pt.Translation(v) == if PageBase(v) == va then None else old(pt.Translation(v))
  {
    assert Agree(pt.Translation(va), pages, va);
    var r := pt.Unmap(va, alloc);
    assert r == Ok;
  }

  /** The loop of `map` over the slots of an area. */
  method MapSlots(pt: PageTable, alloc: FrameAllocator, area: MapArea, ghost pages: Pages,
                  ghost was: imap<Vaddr, Option<Pte>>) returns (ok: bool)
    requires AreaOk(area) && area.flags.present && AllShow(pt, was, area, 0)
    requires pt.Valid() && pt.Disjoint(alloc) && pt.KernelHalf() && TableAgrees(pt, pages)
    modifies pt`mem, pt`tables, pt`tbl, alloc
    ensures pt.Valid() && pt.Disjoint(alloc) && alloc.free <= old(alloc.free)
    ensures pt.mem.Keys <= old(pt.mem.Keys) + old(alloc.free)
    ensures ok ==> TableAgrees(pt, AddPages(pages, area, |area.mapper|))
    ensures ok ==> AllShow(pt, was, area, |area.mapper|)
    ensures ok ==> SlotsNew(area, pages, |area.mapper|)
    ensures !ok ==> Starved(pt, alloc, area) || Occupied(area, pages)
  {
    for k := 0 to |area.mapper|
      invariant pt.Valid() && pt.Disjoint(alloc) && alloc.free <= old(alloc.free)
      invariant pt.mem.Keys <= old(pt.mem.Keys) + old(alloc.free)
      invariant TableAgrees(pt, AddPages(pages, area, k))
      invariant AllShow(pt, was, area, k)
      invariant SlotsNew(area, pages, k)
    {
      var mapped := MapSlot(pt, alloc, area, k, pages, AddPages(pages, area, k), was);
      if !mapped { return false; }
    }
    return true;
  }

  /** The first `n` slots of the area were not mapped before. */
  ghost predicate SlotsNew(area: MapArea, pages: Pages, n: nat)
    requires n <= |area.mapper|
  {
    forall k | 0 <= k < n :: area.mapper[k].va !in pages
  }

  function SlotPte(area: MapArea, k: nat): Option<Pte>
    requires k < |area.mapper|
  {
    Some(Pte(area.mapper[k].frame, area.flags))
  }

  /** With the first `n` slots of the area mapped, `v` translates to `tr`, having translated to `was` before. */
  predicate Shows(tr: Option<Pte>, was: Option<Pte>, area: MapArea, n: nat, v: Vaddr)
    requires AreaOk(area) && n <= |area.mapper|
  {
    tr == if Covers(area, v) && SlotOf(area, v) < n then SlotPte(area, SlotOf(area, v)) else was
  }

  lemma ShowsMore(area: MapArea, n: nat)
    requires AreaOk(area) && n < |area.mapper|
    ensures forall tr, was, v {:trigger Shows(tr, was, area, n, v)} | Shows(tr, was, area, n, v) ::
              Shows(if PageBase(v) == area.mapper[n].va then SlotPte(area, n) else tr, was, area, n + 1, v)
  {
    forall v: Vaddr ensures PageBase(v) == area.mapper[n].va <==> Covers(area, v) && SlotOf(area, v) == n {}
  }

  /** With the first `n` slots of the area unmapped, `v` translates to `tr`, having translated to `was` before. */
  predicate Hides(tr: Option<Pte>, was: Option<Pte>, area: MapArea, n: nat, v: Vaddr)
    requires AreaOk(area) && n <= |area.mapper|
  {
    tr == if Covers(area, v) && SlotOf(area, v) < n then None else was
  }

  lemma HidesMore(area: MapArea, n: nat)
    requires AreaOk(area) && n < |area.mapper|
    ensures forall tr, was, v {:trigger Hides(tr, was, area, n, v)} | Hides(tr, was, area, n, v) ::
              Hides(if PageBase(v) == area.mapper[n].va then None else tr, was, area, n + 1, v)
  {
    forall v: Vaddr ensures PageBase(v) == area.mapper[n].va <==> Covers(area, v) && SlotOf(area, v) == n {}
  }

  ghost predicate AllShow(pt: PageTable, was: imap<Vaddr, Option<Pte>>, area: MapArea, n: nat)
    requires AreaOk(area) && n <= |area.mapper|
    reads pt
  {
    pt.levels >= 1 && forall v: Vaddr | v < USER_TOP :: v in was && Shows(pt.Translation(v), was[v], area, n, v)
  }

  ghost predicate AllHide(pt: PageTable, was: imap<Vaddr, Option<Pte>>, area: MapArea, n: nat)
    requires AreaOk(area) && n <= |area.mapper|
    reads pt
  {
    pt.levels >= 1 && forall v: Vaddr | v < USER_TOP :: v in was && Hides(pt.Translation(v), was[v], area, n, v)
  }

  method MapSlot(pt: PageTable, alloc: FrameAllocator, area: MapArea, k: nat, ghost pages: Pages, ghost added: Pages,
                 ghost was: imap<Vaddr, Option<Pte>>) returns (ok: bool)
    requires AreaOk(area) && k < |area.mapper| && AllShow(pt, was, area, k)
    requires area.flags.present && added == AddPages(pages, area, k)
    requires pt.Valid() && pt.Disjoint(alloc) && pt.KernelHalf() && TableAgrees(pt, added)
    modifies pt`mem, pt`tables, pt`tbl, alloc
    ensures pt.Valid() && pt.Disjoint(alloc) && alloc.free <= old(alloc.free)
    ensures pt.mem.Keys <= old(pt.mem.Keys) + old(alloc.free)
    ensures ok ==> TableAgrees(pt, AddPages(pages, area, k + 1))
    ensures ok && SlotsNew(area, pages, k) ==> SlotsNew(area, pages, k + 1)
    ensures ok ==> AllShow(pt, was, area, k + 1)
    ensures !ok ==> Starved(pt, alloc, area) || Occupied(area, pages)
  {
    var slot := area.mapper[k];
    SlotNotAdded(pages, area, k);
    SlotIsUser(area, k);
    assert Covers(area, slot.va);
    ShowsMore(area, k);
    ok := MapPage(pt, alloc, slot.va, slot.frame, area.flags, added);
  }

  lemma SlotIsUser(area: MapArea, k: nat)
    requires AreaOk(area) && k < |area.mapper|
    ensures area.mapper[k].va < USER_TOP && PageBase(area.mapper[k].va) == area.mapper[k].va
    ensures !IsKernelVaddr(area.mapper[k].va)
  {
    KernelBitIsUpperHalf(area.mapper[k].va);
  }

  lemma {:induction false} AddedPages(pages: Pages, area: MapArea, n: nat)
    requires AreaOk(area) && n <= |area.mapper|
    ensures forall v ::
              v in AddPages(pages, area, n) <==> v in pages || exists k :: 0 <= k < n && area.mapper[k].va == v
    ensures forall v | v in AddPages(pages, area, n) && (forall k | 0 <= k < n :: area.mapper[k].va != v) ::
              v in pages && AddPages(pages, area, n)[v] == pages[v]
    ensures forall k | 0 <= k < n :: AddPages(pages, area, n)[area.mapper[k].va] == area.mapper[k].frame
  {
    if n > 0 { AddedPages(pages, area, n - 1); }
  }

  lemma SlotNotAdded(pages: Pages, area: MapArea, n: nat)
    requires AreaOk(area) && n < |area.mapper|
    ensures area.mapper[n].va in AddPages(pages, area, n) <==> area.mapper[n].va in pages
  {
    AddedPages(pages, area, n);
  }

  lemma AddedValues(pages: Pages, area: MapArea)
    requires AreaOk(area)
    ensures AddPages(pages, area, |area.mapper|).Values <= pages.Values + FrameSet(area)
  {
    var pages' := AddPages(pages, area, |area.mapper|);
    AddedPages(pages, area, |area.mapper|);
    forall f | f in pages'.Values ensures f in pages.Values + FrameSet(area) {
      var v :| v in pages' && pages'[v] == f;
      if k :| 0 <= k < |area.mapper| && area.mapper[k].va == v { assert f == area.mapper[k].frame; }
    }
  }

  lemma RemovedValues(pages: Pages, area: MapArea)
    ensures RemovePages(pages, area, |area.mapper|).Values <= pages.Values
  {
    var pages' := RemovePages(pages, area, |area.mapper|);
    RemovedPages(pages, area, |area.mapper|);
    forall f | f in pages'.Values ensures f in pages.Values {
      var v :| v in pages' && pages'[v] == f;
      assert pages[v] == f;
    }
  }

  lemma {:induction false} RemovedPages(pages: Pages, area: MapArea, n: nat)
    requires n <= |area.mapper|
    ensures forall v ::
              v in RemovePages(pages, area, n) <==> v in pages && forall k | 0 <= k < n :: area.mapper[k].va != v
    ensures forall v | v in RemovePages(pages, area, n) :: RemovePages(pages, area, n)[v] == pages[v]
  {
    if n > 0 { RemovedPages(pages, area, n - 1); }
  }

  /** The loop of `unmap` and `clear` over the slots of an area. */
  method UnmapSlots(pt: PageTable, alloc: FrameAllocator, area: MapArea, ghost pages: Pages)
    requires AreaOk(area)
    requires pt.Valid() && pt.Disjoint(alloc) && pt.KernelHalf() && TableAgrees(pt, pages)
    requires forall k | 0 <= k < |area.mapper| :: area.mapper[k].va in pages
    modifies pt`mem, pt`tables, pt`tbl, alloc
    ensures pt.Valid() && pt.Disjoint(alloc) && alloc.free == old(alloc.free) && pt.mem.Keys == old(pt.mem.Keys)
    ensures TableAgrees(pt, RemovePages(pages, area, |area.mapper|))
    ensures forall v: Vaddr | v < USER_TOP :: Hides(pt.Translation(v), old(pt.Translation(v)), area, |area.mapper|, v)
  {
    ghost var was := imap v: Vaddr | v < USER_TOP :: pt.Translation(v);
    for k := 0 to |area.mapper|
      invariant pt.Valid() && pt.Disjoint(alloc) && alloc.free == old(alloc.free) && pt.mem.Keys == old(pt.mem.Keys)
      invariant TableAgrees(pt, RemovePages(pages, area, k))
      invariant AllHide(pt, was, area, k)
    {
      RemovedPages(pages, area, k);
      UnmapSlot(pt, alloc, area, k, RemovePages(pages, area, k), was);
    }
  }

  method UnmapSlot(pt: PageTable, alloc: FrameAllocator, area: MapArea, k: nat, ghost pages: Pages,
                   ghost was: imap<Vaddr, Option<Pte>>)
    requires AreaOk(area) && k < |area.mapper| && area.mapper[k].va in pages && AllHide(pt, was, area, k)
    requires pt.Valid() && pt.Disjoint(alloc) && pt.KernelHalf() && TableAgrees(pt, pages)
    modifies pt`mem, pt`tables, pt`tbl, alloc
    ensures pt.Valid() && pt.Disjoint(alloc) && alloc.free == old(alloc.free) && pt.mem.Keys == old(pt.mem.Keys)
    ensures TableAgrees(pt, pages - {area.mapper[k].va}) && AllHide(pt, was, area, k + 1)
  {
    SlotIsUser(area, k);
    HidesMore(area, k);
    UnmapPage(pt, alloc, area.mapper[k].va, pages);
  }

  lemma KeyIsMapped(areas: seq<MapArea>, pages: Pages, area: MapArea)
    requires AreasOk(areas) && PagesMatch(areas, pages) && AreaOk(area) && HasKey(areas, area.startVa)
    ensures Occupied(area, pages)
  {
    var x :| x in areas && x.startVa == area.startVa;
    assert x.mapper[0].va in pages;
    assert Covers(area, area.startVa) && PageBase(area.startVa) == area.startVa;
  }

  lemma {:induction false} InsertMembers(areas: seq<MapArea>, area: MapArea)
    ensures forall x :: x in InsertArea(areas, area) <==> x in areas || x == area
  {
    if areas != [] && area.startVa >= areas[0].startVa {
      InsertMembers(areas[1..], area);
      assert areas == [areas[0]] + areas[1..];
    }
  }

  predicate ApartAreas(x: MapArea, y: MapArea) {
    x.startVa + x.size <= y.startVa || y.startVa + y.size <= x.startVa
  }

  lemma TailOk(areas: seq<MapArea>)
    requires AreasOk(areas) && areas != []
    ensures AreasOk(areas[1..])
    ensures forall x | x in areas[1..] :: areas[0].startVa + areas[0].size <= x.startVa
  {
    var tail := areas[1..];
    forall i, j | 0 <= i < j < |tail| ensures Before(tail, i, j) { assert Before(areas, i + 1, j + 1); }
    forall x | x in tail ensures areas[0].startVa + areas[0].size <= x.startVa {
      var i :| 0 <= i < |tail| && tail[i] == x;
      assert Before(areas, 0, i + 1);
    }
  }

  lemma ConsOk(area: MapArea, areas: seq<MapArea>)
    requires AreaOk(area) && AreasOk(areas) && forall x | x in areas :: area.startVa + area.size <= x.startVa
    ensures AreasOk([area] + areas)
  {
    var all := [area] + areas;
    forall i, j | 0 <= i < j < |all| ensures Before(all, i, j) {
      assert all[j] == areas[j - 1];
      if i > 0 { assert Before(areas, i - 1, j - 1); }
    }
  }

  lemma {:induction false} InsertOk(areas: seq<MapArea>, area: MapArea)
    requires AreasOk(areas) && AreaOk(area) && forall x | x in areas :: ApartAreas(x, area)
    ensures AreasOk(InsertArea(areas, area))
  {
    if areas == [] {
      ConsOk(area, areas);
    } else {
      TailOk(areas);
      if area.startVa < areas[0].startVa {
        forall x | x in areas ensures area.startVa + area.size <= x.startVa {
          assert x == areas[0] || x in areas[1..];
        }
        ConsOk(area, areas);
      } else {
        assert ApartAreas(areas[0], area);
        InsertOk(areas[1..], area);
        InsertMembers(areas[1..], area);
        ConsOk(areas[0], InsertArea(areas[1..], area));
      }
    }
  }

  /** Two aligned, populated areas that meet have a page in common. */
  lemma MeetingAreasSharePage(x: MapArea, y: MapArea) returns (k: nat, l: nat)
    requires AreaOk(x) && AreaOk(y) && !ApartAreas(x, y)
    ensures k < |x.mapper| && l < |y.mapper| && x.mapper[k].va == y.mapper[l].va
  {
    var va := if x.startVa < y.startVa then y.startVa else x.startVa;
    k, l := SlotOf(x, va), SlotOf(y, va);
  }

  lemma AreaAdded(areas: seq<MapArea>, pages: Pages, bytes: map<Paddr, seq<Byte>>, area: MapArea)
    requires AreasOk(areas) && PagesMatch(areas, pages) && PagesBacked(pages, bytes)
    requires AreaOk(area) && FramesOk(area, bytes) && FramesUnused(area, pages, {})
    requires forall k | 0 <= k < |area.mapper| :: area.mapper[k].va !in pages
    ensures AreasOk(InsertArea(areas, area))
    ensures PagesMatch(InsertArea(areas, area), AddPages(pages, area, |area.mapper|))
    ensures PagesBacked(AddPages(pages, area, |area.mapper|), bytes)
    ensures forall a: Vaddr | Covers(area, a) :: PageBase(a) !in pages
  {
    forall x | x in areas ensures ApartAreas(x, area) {
      if !ApartAreas(x, area) { var k, l := MeetingAreasSharePage(x, area); }
    }
    InsertOk(areas, area);
    forall a: Vaddr | Covers(area, a) ensures PageBase(a) !in pages { var k := SlotOf(area, a); }
    AddedMatch(areas, pages, area);
    AddedBacked(pages, bytes, area);
  }

  lemma AddedMatch(areas: seq<MapArea>, pages: Pages, area: MapArea)
    requires AreasOk(areas) && PagesMatch(areas, pages) && AreaOk(area)
    requires forall k | 0 <= k < |area.mapper| :: area.mapper[k].va !in pages
    ensures PagesMatch(InsertArea(areas, area), AddPages(pages, area, |area.mapper|))
  {
    var areas', pages' := InsertArea(areas, area), AddPages(pages, area, |area.mapper|);
    InsertMembers(areas, area);
    AddedPages(pages, area, |area.mapper|);
    forall x, k | x in areas' && 0 <= k < |x.mapper|
      ensures x.mapper[k].va in pages' && pages'[x.mapper[k].va] == x.mapper[k].frame
    {
      if x != area { assert x.mapper[k].va in pages; }
    }
    forall va | va in pages' ensures va % PAGE_SIZE == 0 && InSomeArea(areas', va) {
      AddedPageInArea(areas, areas', pages, pages', area, va);
    }
  }

  lemma AddedPageInArea(areas: seq<MapArea>, areas': seq<MapArea>, pages: Pages, pages': Pages, area: MapArea,
                        va: Vaddr)
    requires PagesMatch(areas, pages) && AreaOk(area) && area in areas' && (forall x | x in areas :: x in areas')
    requires va in pages || exists k :: 0 <= k < |area.mapper| && area.mapper[k].va == va
    ensures va % PAGE_SIZE == 0 && InSomeArea(areas', va)
  {
    if va in pages {
      var x :| x in areas && Covers(x, va);
      assert x in areas';
    } else {
      var k :| 0 <= k < |area.mapper| && area.mapper[k].va == va;
      assert Covers(area, va);
    }
  }

  lemma AddedBacked(pages: Pages, bytes: map<Paddr, seq<Byte>>, area: MapArea)
    requires PagesBacked(pages, bytes)
    requires AreaOk(area) && FramesOk(area, bytes) && FramesUnused(area, pages, {})
    requires forall k | 0 <= k < |area.mapper| :: area.mapper[k].va !in pages
    ensures PagesBacked(AddPages(pages, area, |area.mapper|), bytes)
  {
    var pages' := AddPages(pages, area, |area.mapper|);
    AddedPages(pages, area, |area.mapper|);
    forall v, w | v in pages' && w in pages' ensures PagesApart(pages', v, w) {
      if v in pages && w in pages {
        assert PagesApart(pages, v, w);
      } else if v !in pages && w !in pages {
        var k :| 0 <= k < |area.mapper| && area.mapper[k].va == v;
        var l :| 0 <= l < |area.mapper| && area.mapper[l].va == w;
        assert SlotsApart(area, k, l);
      } else {
        assert (v in pages ==> pages[v] in pages.Values) && (w in pages ==> pages[w] in pages.Values);
        assert (v !in pages ==> pages'[v] in FrameSet(area)) && (w !in pages ==> pages'[w] in FrameSet(area));
      }
    }
  }

  lemma AreaRemoved(areas: seq<MapArea>, pages: Pages, bytes: map<Paddr, seq<Byte>>, i: nat)
    requires AreasOk(areas) && PagesMatch(areas, pages) && PagesBacked(pages, bytes) && i < |areas|
    ensures var areas', pages' := areas[..i] + areas[i + 1..], RemovePages(pages, areas[i], |areas[i].mapper|);
            AreasOk(areas') && PagesMatch(areas', pages') && PagesBacked(pages', bytes)
  {
    var area := areas[i];
    var areas', pages' := areas[..i] + areas[i + 1..], RemovePages(pages, area, |area.mapper|);
    RemovedPages(pages, area, |area.mapper|);
    forall j, k | 0 <= j < k < |areas'| ensures Before(areas', j, k) {
      assert Before(areas, if j < i then j else j + 1, if k < i then k else k + 1);
    }
    RemovedMatch(areas, pages, i, areas', pages');
    forall v, w | v in pages' && w in pages' ensures PagesApart(pages', v, w) { assert PagesApart(pages, v, w); }
  }

  lemma RemovedMatch(areas: seq<MapArea>, pages: Pages, i: nat, areas': seq<MapArea>, pages': Pages)
    requires AreasOk(areas) && PagesMatch(areas, pages) && i < |areas|
    requires areas' == areas[..i] + areas[i + 1..] && pages' == RemovePages(pages, areas[i], |areas[i].mapper|)
    ensures PagesMatch(areas', pages')
  {
    var area := areas[i];
    RemovedPages(pages, area, |area.mapper|);
    forall x, k | x in areas' && 0 <= k < |x.mapper|
      ensures x.mapper[k].va in pages' && pages'[x.mapper[k].va] == x.mapper[k].frame
    {
      var j :| 0 <= j < |areas| && j != i && areas[j] == x;
      OtherAreaKeepsPage(areas, j, i, k);
    }
    forall v | v in pages' ensures v % PAGE_SIZE == 0 && InSomeArea(areas', v) {
      var x :| x in areas && Covers(x, v);
      var k := SlotOf(x, v);
      assert PageBase(v) == v;
      assert x != area;
      assert x in areas';
    }
  }

  lemma OtherAreaKeepsPage(areas: seq<MapArea>, j: nat, i: nat, k: nat)
    requires AreasOk(areas) && j < |areas| && i < |areas| && i != j && k < |areas[j].mapper|
    ensures forall l | 0 <= l < |areas[i].mapper| :: areas[i].mapper[l].va != areas[j].mapper[k].va
  {
    if i < j { assert Before(areas, i, j); } else { assert Before(areas, j, i); }
    assert Covers(areas[j], areas[j].mapper[k].va);
    forall l | 0 <= l < |areas[i].mapper| ensures areas[i].mapper[l].va != areas[j].mapper[k].va {
      assert Covers(areas[i], areas[i].mapper[l].va);
    }
  }

  /** Memory outside a set of frames is as it was. */
  ghost predicate KeptOutside(frames: set<Paddr>, before: map<Paddr, seq<Byte>>, after: map<Paddr, seq<Byte>>) {
    forall f | f in before && f !in frames :: f in after && after[f] == before[f]
  }

  lemma KeptMemory(pages: Pages, free: set<Paddr>, before: map<Paddr, seq<Byte>>, after: map<Paddr, seq<Byte>>)
    requires PagesBacked(pages, before) && pages.Values !! free && KeptOutside(free, before, after)
    ensures PagesBacked(pages, after)
    ensures forall a: Vaddr :: Flat(pages, after, a) == Flat(pages, before, a)
  {
    forall v | v in pages ensures pages[v] in after && after[pages[v]] == before[pages[v]] {
      assert pages[v] in pages.Values;
    }
    forall v, w | v in pages && w in pages ensures PagesApart(pages, v, w) {}
  }

  lemma AreaFrames(areas: seq<MapArea>, pages: Pages, bytes: map<Paddr, seq<Byte>>, i: nat)
    requires AreasOk(areas) && PagesMatch(areas, pages) && PagesBacked(pages, bytes) && i < |areas|
    ensures FramesOk(areas[i], bytes) && FrameSet(areas[i]) <= pages.Values
  {
    AreaIsFlat(areas, pages, bytes, i);
    forall k | 0 <= k < |areas[i].mapper| ensures areas[i].mapper[k].frame in pages.Values {
      assert areas[i] in areas && areas[i].mapper[k].va in pages;
    }
  }

  /** `MapArea::clone`: every slot gets a frame of its own with the same bytes. */
  method CloneArea(area: MapArea, alloc: FrameAllocator, ram: Ram) returns (r: Option<MapArea>)
    requires AreaOk(area) && FramesOk(area, ram.bytes) && FrameSet(area) !! alloc.free
    modifies alloc, ram
    ensures alloc.free <= old(alloc.free)
    ensures KeptOutside(old(alloc.free), old(ram.bytes), ram.bytes)
    ensures r.None? ==> alloc.free == {}
    ensures r.Some? ==> Twin(area, r.value, ram.bytes) && FramesOk(r.value, ram.bytes)
    ensures r.Some? ==> FrameSet(r.value) <= old(alloc.free) && FrameSet(r.value) !! alloc.free
  {
    var mapper: seq<Slot> := [];
    for k := 0 to |area.mapper|
      invariant alloc.free <= old(alloc.free) && KeptOutside(old(alloc.free), old(ram.bytes), ram.bytes)
      invariant |mapper| == k && SlotsCopied(area, mapper, ram.bytes)
      invariant forall l | 0 <= l < k :: mapper[l].frame in old(alloc.free) && mapper[l].frame !in alloc.free
      invariant FreshSlots(mapper)
    {
      var frame := alloc.AllocSingle();
      if frame.None? { return None; }
      ghost var bytes := ram.bytes;
      assert area.mapper[k].frame in FrameSet(area);
      ram.bytes := ram.bytes[frame.value := ram.bytes[area.mapper[k].frame]];
      SlotCopied(area, mapper, bytes, ram.bytes, frame.value);
      mapper := mapper + [Slot(area.mapper[k].va, frame.value)];
    }
    r := Some(MapArea(area.startVa, area.size, area.flags, mapper));
    forall k, l | 0 <= k < |mapper| && 0 <= l < |mapper| ensures SlotsApart(r.value, k, l) {
      assert SlotsDiffer(mapper, k, l);
    }
  }

  ghost predicate SlotsCopied(area: MapArea, mapper: seq<Slot>, bytes: map<Paddr, seq<Byte>>) {
    && |mapper| <= |area.mapper|
    && (forall k | 0 <= k < |area.mapper| ::
          area.mapper[k].frame in bytes && |bytes[area.mapper[k].frame]| == PAGE_SIZE)
    && (forall k | 0 <= k < |mapper| ::
          && mapper[k].va == area.mapper[k].va && mapper[k].frame in bytes
          && bytes[mapper[k].frame] == bytes[area.mapper[k].frame])
  }

  predicate SlotsDiffer(mapper: seq<Slot>, k: nat, l: nat)
    requires k < |mapper| && l < |mapper|
  {
    mapper[k].frame == mapper[l].frame ==> k == l
  }

  ghost predicate FreshSlots(mapper: seq<Slot>) {
    forall k, l {:trigger SlotsDiffer(mapper, k, l)} | 0 <= k < |mapper| && 0 <= l < |mapper| ::
      SlotsDiffer(mapper, k, l)
  }

  lemma SlotCopied(area: MapArea, mapper: seq<Slot>, before: map<Paddr, seq<Byte>>, after: map<Paddr, seq<Byte>>,
                   frame: Paddr)
    requires SlotsCopied(area, mapper, before) && |mapper| < |area.mapper| && FreshSlots(mapper)
    requires frame !in FrameSet(area) && forall l | 0 <= l < |mapper| :: mapper[l].frame != frame
    requires after == before[frame := before[area.mapper[|mapper|].frame]]
    ensures SlotsCopied(area, mapper + [Slot(area.mapper[|mapper|].va, frame)], after)
    ensures FreshSlots(mapper + [Slot(area.mapper[|mapper|].va, frame)])
  {
    var more := mapper + [Slot(area.mapper[|mapper|].va, frame)];
    forall k | 0 <= k < |area.mapper| ensures area.mapper[k].frame != frame {
      assert area.mapper[k].frame in FrameSet(area);
    }
    forall k, l | 0 <= k < |more| && 0 <= l < |more| ensures SlotsDiffer(more, k, l) {
      if k < |mapper| && l < |mapper| { assert SlotsDiffer(mapper, k, l); }
    }
  }

  lemma KeptTwins(xs: seq<MapArea>, n: nat, ps: Pages, ys: seq<MapArea>, qs: Pages, free: set<Paddr>,
                  before: map<Paddr, seq<Byte>>, after: map<Paddr, seq<Byte>>)
    requires n <= |xs| && Twins(xs[..n], ys, before) && KeptOutside(free, before, after)
    requires AreasOk(xs) && PagesMatch(xs, ps) && PagesBacked(ps, before) && ps.Values !! free
    requires AreasOk(ys) && PagesMatch(ys, qs) && PagesBacked(qs, before) && qs.Values !! free
    ensures Twins(xs[..n], ys, after)
  {
    forall i | 0 <= i < n ensures Twin(xs[..n][i], ys[i], after) {
      assert Twin(xs[..n][i], ys[i], before);
      AreaFrames(xs, ps, before, i);
      AreaFrames(ys, qs, before, i);
      KeptTwin(xs[i], ys[i], free, before, after);
    }
  }

  lemma TwinsMore(areas: seq<MapArea>, i: nat, ys: seq<MapArea>, copy: MapArea, bytes: map<Paddr, seq<Byte>>)
    requires i < |areas| && Twins(areas[..i], ys, bytes) && Twin(areas[i], copy, bytes)
    ensures Twins(areas[..i + 1], ys + [copy], bytes)
  {
    forall j | 0 <= j <= i ensures Twin(areas[..i + 1][j], (ys + [copy])[j], bytes) {
      if j < i { assert Twin(areas[..i][j], ys[j], bytes); }
    }
  }

  lemma KeptTwin(x: MapArea, y: MapArea, free: set<Paddr>, before: map<Paddr, seq<Byte>>, after: map<Paddr, seq<Byte>>)
    requires Twin(x, y, before) && KeptOutside(free, before, after) && FrameSet(x) !! free && FrameSet(y) !! free
    ensures Twin(x, y, after)
  {
    forall k | 0 <= k < |x.mapper| ensures x.mapper[k].frame !in free && y.mapper[k].frame !in free {
      assert x.mapper[k].frame in FrameSet(x) && y.mapper[k].frame in FrameSet(y);
    }
  }

  lemma {:induction false} InsertAtEnd(areas: seq<MapArea>, area: MapArea)
    requires forall x | x in areas :: x.startVa <= area.startVa
    ensures InsertArea(areas, area) == areas + [area]
  {
    if areas != [] {
      InsertAtEnd(areas[1..], area);
      assert areas == [areas[0]] + areas[1..];
    }
  }

  /** The copy of the next area lies after everything copied so far. */
  lemma CopyIsLast(areas: seq<MapArea>, i: nat, ys: seq<MapArea>, qs: Pages, copy: MapArea,
                   bytes: map<Paddr, seq<Byte>>)
    requires AreasOk(areas) && i < |areas| && Twins(areas[..i], ys, bytes) && PagesMatch(ys, qs) && AreasOk(ys)
    requires Twin(areas[i], copy, bytes)
    ensures AreaOk(copy) && InsertArea(ys, copy) == ys + [copy]
    ensures forall a: Vaddr | Covers(copy, a) :: PageBase(a) !in qs
  {
    forall j | 0 <= j < |ys| ensures ys[j].startVa + ys[j].size <= copy.startVa {
      assert Twin(areas[..i][j], ys[j], bytes) && Before(areas, j, i);
    }
    InsertAtEnd(ys, copy);
    forall a: Vaddr | Covers(copy, a) ensures PageBase(a) !in qs {
      assert PageBase(a) >= copy.startVa;
      forall y | y in ys ensures !Covers(y, PageBase(a)) {}
      assert !InSomeArea(ys, PageBase(a));
    }
  }
}
