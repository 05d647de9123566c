/** The areas of an address space as one flat byte memory.

    `BTreeMap` keys are visited in ascending order, so a map of areas is a sequence
    sorted by start address, and the frames of an area are a sequence sorted by page. */
module FlatMemory {
  import opened PageTables
  import opened Options

  type Byte = bv8

  datatype Slot = Slot(va: Vaddr, frame: Paddr)

  datatype MapArea = MapArea(startVa: Vaddr, size: nat, flags: Flags, mapper: seq<Slot>)

  /** The contents of the data frames. */
  class Ram {
    var bytes: map<Paddr, seq<Byte>>

    constructor (bytes: map<Paddr, seq<Byte>>)
      ensures this.bytes == bytes
    {
      this.bytes := bytes;
    }
  }

  predicate Covers(area: MapArea, a: Vaddr) { area.startVa <= a < area.startVa + area.size }

  /** A fully populated, page-aligned area of user addresses. */
  predicate AreaOk(area: MapArea) {
    && area.size > 0 && area.startVa % PAGE_SIZE == 0 && area.startVa + area.size <= USER_TOP
    && area.size == |area.mapper| * PAGE_SIZE
    && (forall k | 0 <= k < |area.mapper| :: area.mapper[k].va == area.startVa + k * PAGE_SIZE)
  }

  function SlotOf(area: MapArea, a: Vaddr): (k: nat)
    requires AreaOk(area) && Covers(area, a)
    ensures k < |area.mapper| && area.mapper[k].va == PageBase(a)
  {
    (a - area.startVa) / PAGE_SIZE
  }

  function FrameOf(area: MapArea, a: Vaddr): Paddr
    requires AreaOk(area) && Covers(area, a)
  {
    area.mapper[SlotOf(area, a)].frame
  }

  /** Every frame of the area has a page of bytes, and no two slots share a frame. */
  predicate FramesOk(area: MapArea, bytes: map<Paddr, seq<Byte>>) {
    && (forall k | 0 <= k < |area.mapper| ::
          area.mapper[k].frame in bytes && |bytes[area.mapper[k].frame]| == PAGE_SIZE)
    && (forall k, l {:trigger SlotsApart(area, k, l)} | 0 <= k < |area.mapper| && 0 <= l < |area.mapper| ::
          SlotsApart(area, k, l))
  }

  predicate SlotsApart(area: MapArea, k: nat, l: nat)
    requires k < |area.mapper| && l < |area.mapper|
  {
    area.mapper[k].frame == area.mapper[l].frame ==> k == l
  }

  function ByteIn(area: MapArea, bytes: map<Paddr, seq<Byte>>, a: Vaddr): Byte
    requires AreaOk(area) && FramesOk(area, bytes) && Covers(area, a)
  {
    bytes[FrameOf(area, a)][a % PAGE_SIZE]
  }

  function Min(a: nat, b: nat): nat { if a < b then a else b }

  /** `MapArea::new`; `None` is its failed assertion. */
  method NewArea(startVa: Vaddr, size: nat, flags: Flags, frames: seq<Paddr>) returns (r: Option<MapArea>)
    ensures r.None? <==> startVa % PAGE_SIZE != 0 || size % PAGE_SIZE != 0 || |frames| != size / PAGE_SIZE
    ensures r.Some? ==>
              && r.value.startVa == startVa && r.value.size == size && r.value.flags == flags
              && |r.value.mapper| == |frames|
              && (forall k | 0 <= k < |frames| :: r.value.mapper[k] == Slot(startVa + k * PAGE_SIZE, frames[k]))
    ensures r.Some? && size > 0 && startVa + size <= USER_TOP ==> AreaOk(r.value)
  {
    if startVa % PAGE_SIZE != 0 || size % PAGE_SIZE != 0 || |frames| != size / PAGE_SIZE { return None; }
    var mapper: seq<Slot> := [];
    var current := startVa;
    for i := 0 to size / PAGE_SIZE
      invariant |mapper| == i && current == startVa + i * PAGE_SIZE
      invariant forall k | 0 <= k < i :: mapper[k] == Slot(startVa + k * PAGE_SIZE, frames[k])
    {
      mapper := mapper + [Slot(current, frames[i])];
      current := current + PAGE_SIZE;
    }
    return Some(MapArea(startVa, size, flags, mapper));
  }

  /** `data` is what the area holds from `addr` on. */
  ghost predicate Holds(area: MapArea, bytes: map<Paddr, seq<Byte>>, addr: Vaddr, data: seq<Byte>)
    requires AreaOk(area) && FramesOk(area, bytes)
  {
    forall i {:trigger data[i]} | 0 <= i < |data| :: HoldsAt(area, bytes, addr + i, data[i])
  }

  predicate HoldsAt(area: MapArea, bytes: map<Paddr, seq<Byte>>, a: Vaddr, b: Byte)
    requires AreaOk(area) && FramesOk(area, bytes)
  {
    Covers(area, a) && ByteIn(area, bytes, a) == b
  }

  lemma HoldsMore(area: MapArea, bytes: map<Paddr, seq<Byte>>, addr: Vaddr, data: seq<Byte>, k: nat, offset: nat,
                  piece: seq<Byte>)
    requires AreaOk(area) && FramesOk(area, bytes) && k < |area.mapper| && offset + |piece| <= PAGE_SIZE
    requires Holds(area, bytes, addr, data) && addr + |data| == area.mapper[k].va + offset
    requires piece == bytes[area.mapper[k].frame][offset..offset + |piece|]
    ensures Holds(area, bytes, addr, data + piece)
  {
    var all := data + piece;
    forall i | 0 <= i < |all| ensures HoldsAt(area, bytes, addr + i, all[i]) {
      if i < |data| {
        assert HoldsAt(area, bytes, addr + i, data[i]);
      } else {
        var j, va := i - |data|, area.mapper[k].va;
        assert addr + i == va + (offset + j) && va == area.startVa + k * PAGE_SIZE;
        assert SlotOf(area, addr + i) == k && (addr + i) % PAGE_SIZE == offset + j;
      }
    }
  }

  /** `MapArea::read_data` within the area. */
  method ReadData(area: MapArea, ram: Ram, addr: Vaddr, n: nat) returns (data: seq<Byte>)
    requires AreaOk(area) && FramesOk(area, ram.bytes)
    requires Covers(area, addr) && addr + n <= area.startVa + area.size
    ensures |data| == n && Holds(area, ram.bytes, addr, data)
  {
    data := [];
    var start := addr;
    ghost var first := SlotOf(area, addr);
    for k := 0 to |area.mapper|
      invariant start == addr + |data| && |data| <= n
      invariant k <= first ==> data == []
      invariant k > first ==> start == area.startVa + k * PAGE_SIZE && |data| < n
      invariant Holds(area, ram.bytes, addr, data)
    {
      var va := area.mapper[k].va;
      if va <= start < va + PAGE_SIZE {
        var offset := start - va;
        var len := Min(PAGE_SIZE - offset, n - |data|);
        var piece := ram.bytes[area.mapper[k].frame][offset..offset + len];
        HoldsMore(area, ram.bytes, addr, data, k, offset, piece);
        data := data + piece;
        if |data| == n { return; }
        start := va + PAGE_SIZE;
      }
    }
  }

  function Splice(page: seq<Byte>, offset: nat, data: seq<Byte>): seq<Byte>
    requires offset + |data| <= |page|
  {
    page[..offset] + data + page[offset + |data|..]
  }

  /** The area after writing `data` at `addr`, with no other frame touched. */
  ghost predicate AreaWritten(area: MapArea, before: map<Paddr, seq<Byte>>, after: map<Paddr, seq<Byte>>, addr: Vaddr,
                              data: seq<Byte>)
    requires AreaOk(area) && FramesOk(area, before)
  {
    && after.Keys == before.Keys && FramesOk(area, after)
    && (forall a: Vaddr {:trigger ByteIn(area, after, a)} | Covers(area, a) ::
          ByteIn(area, after, a) == if addr <= a < addr + |data| then data[a - addr] else ByteIn(area, before, a))
    && (forall f | f in after && !HasFrame(area, f) :: after[f] == before[f])
  }

  predicate HasFrame(area: MapArea, f: Paddr) { exists k :: 0 <= k < |area.mapper| && area.mapper[k].frame == f }

  lemma NothingWritten(area: MapArea, bytes: map<Paddr, seq<Byte>>, addr: Vaddr)
    requires AreaOk(area) && FramesOk(area, bytes)
    ensures AreaWritten(area, bytes, bytes, addr, [])
  {
  }

  lemma AreaWrittenMore(area: MapArea, before: map<Paddr, seq<Byte>>, mid: map<Paddr, seq<Byte>>,
                        after: map<Paddr, seq<Byte>>, addr: Vaddr, data: seq<Byte>, n: nat, len: nat)
    requires AreaOk(area) && FramesOk(area, before) && n + len <= |data|
    requires AreaWritten(area, before, mid, addr, data[..n])
    requires AreaWritten(area, mid, after, addr + n, data[n..n + len])
    ensures AreaWritten(area, before, after, addr, data[..n + len])
  {
    forall a: Vaddr | Covers(area, a)
      ensures ByteIn(area, after, a) == if addr <= a < addr + n + len then data[..n + len][a - addr]
                                        else ByteIn(area, before, a)
    {
      assert ByteIn(area, mid, a) == if addr <= a < addr + n then data[..n][a - addr] else ByteIn(area, before, a);
    }
  }

  /** `MapArea::write_data` within the area: exactly the bytes of the range change. */
  method WriteData(area: MapArea, ram: Ram, addr: Vaddr, data: seq<Byte>)
    requires AreaOk(area) && FramesOk(area, ram.bytes)
    requires Covers(area, addr) && addr + |data| <= area.startVa + area.size
    modifies ram
    ensures AreaWritten(area, old(ram.bytes), ram.bytes, addr, data)
  {
    var start, done := addr, 0;
    assert data[..0] == [];
    NothingWritten(area, ram.bytes, addr);
    ghost var first := SlotOf(area, addr);
    for k := 0 to |area.mapper|
      invariant start == addr + done && done <= |data|
      invariant k <= first ==> done == 0
      invariant k > first ==> start == area.startVa + k * PAGE_SIZE && done < |data|
      invariant AreaWritten(area, old(ram.bytes), ram.bytes, addr, data[..done])
    {
      var va := area.mapper[k].va;
      if va <= start < va + PAGE_SIZE {
        var offset := start - va;
        var len := Min(PAGE_SIZE - offset, |data| - done);
        WriteSlot(area, ram, k, offset, addr, data, done, len, old(ram.bytes));
        done := done + len;
        if done == |data| {
          assert data[..done] == data;
          return;
        }
        start := va + PAGE_SIZE;
      }
    }
  }

  /** The next piece of `write_data`, on top of what it has written since `before`. */
  method WriteSlot(area: MapArea, ram: Ram, k: nat, offset: nat, addr: Vaddr, data: seq<Byte>, done: nat, len: nat,
                   ghost before: map<Paddr, seq<Byte>>)
    requires AreaOk(area) && FramesOk(area, before) && k < |area.mapper| && done + len <= |data|
    requires offset + len <= PAGE_SIZE
    requires addr + done == area.mapper[k].va + offset
    requires AreaWritten(area, before, ram.bytes, addr, data[..done])
    modifies ram
    ensures AreaWritten(area, before, ram.bytes, addr, data[..done + len])
  {
    ghost var mid := ram.bytes;
    WritePage(area, ram, k, offset, data[done..done + len]);
    AreaWrittenMore(area, before, mid, ram.bytes, addr, data, done, len);
  }

  /** `pa.writer().skip(offset).write(..)` on slot `k` of an area. */
  method WritePage(area: MapArea, ram: Ram, k: nat, offset: nat, data: seq<Byte>)
    requires AreaOk(area) && FramesOk(area, ram.bytes) && k < |area.mapper|
    requires offset + |data| <= PAGE_SIZE
    modifies ram
    ensures AreaWritten(area, old(ram.bytes), ram.bytes, area.mapper[k].va + offset, data)
  {
    var f := area.mapper[k].frame;
    ghost var before := ram.bytes;
    ram.bytes := ram.bytes[f := Splice(ram.bytes[f], offset, data)];
    var from := area.mapper[k].va + offset;
    forall a: Vaddr | Covers(area, a)
      ensures ByteIn(area, ram.bytes, a) == if from <= a < from + |data| then data[a - from]
                                            else ByteIn(area, before, a)
    {
      var l := SlotOf(area, a);
      assert SlotsApart(area, l, k);
      if l == k { assert a % PAGE_SIZE == a - area.mapper[k].va; }
    }
  }

  // --- The whole set of areas ---

  ghost predicate AreasOk(areas: seq<MapArea>) {
    && (forall i | 0 <= i < |areas| :: AreaOk(areas[i]))
    && (forall i, j {:trigger Before(areas, i, j)} | 0 <= i < j < |areas| :: Before(areas, i, j))
  }

  predicate Before(areas: seq<MapArea>, i: nat, j: nat)
    requires i < |areas| && j < |areas|
  {
    areas[i].startVa + areas[i].size <= areas[j].startVa
  }

  type Pages = map<Vaddr, Paddr>

  /** `pages` maps the address of every page of every area to its frame, and nothing else. */
  ghost predicate PagesMatch(areas: seq<MapArea>, pages: Pages) {
    && (forall x, k | x in areas && 0 <= k < |x.mapper| ::
          x.mapper[k].va in pages && pages[x.mapper[k].va] == x.mapper[k].frame)
    && (forall va | va in pages :: va % PAGE_SIZE == 0 && InSomeArea(areas, va))
  }

  ghost predicate InSomeArea(areas: seq<MapArea>, a: Vaddr) {
    exists x :: x in areas && Covers(x, a)
  }

  /** Some area covers `a` and may be written. */
  ghost predicate Writable(areas: seq<MapArea>, a: Vaddr) {
    exists i :: 0 <= i < |areas| && Covers(areas[i], a) && areas[i].flags.writable
  }

  /** Every page has a frame of its own, with a page of bytes. */
  ghost predicate PagesBacked(pages: Pages, bytes: map<Paddr, seq<Byte>>) {
    && (forall v, w {:trigger PagesApart(pages, v, w)} | v in pages && w in pages :: PagesApart(pages, v, w))
    && (forall v | v in pages :: pages[v] in bytes && |bytes[pages[v]]| == PAGE_SIZE)
  }

  predicate PagesApart(pages: Pages, v: Vaddr, w: Vaddr)
    requires v in pages && w in pages
  {
    pages[v] == pages[w] ==> v == w
  }

  /** The flat memory that the areas make up. */
  function Flat(pages: Pages, bytes: map<Paddr, seq<Byte>>, a: Vaddr): Option<Byte> {
    var b := PageBase(a);
    if b in pages && pages[b] in bytes && |bytes[pages[b]]| == PAGE_SIZE
    then Some(bytes[pages[b]][a % PAGE_SIZE]) else None
  }

  lemma AreaIsFlat(areas: seq<MapArea>, pages: Pages, bytes: map<Paddr, seq<Byte>>, i: nat)
    requires AreasOk(areas) && PagesMatch(areas, pages) && PagesBacked(pages, bytes) && i < |areas|
    ensures FramesOk(areas[i], bytes)
    ensures forall a: Vaddr | Covers(areas[i], a) ::
              PageBase(a) in pages && Flat(pages, bytes, a) == Some(ByteIn(areas[i], bytes, a))
  {
    var area := areas[i];
    forall k, l | 0 <= k < |area.mapper| && 0 <= l < |area.mapper| ensures SlotsApart(area, k, l) {
      assert PagesApart(pages, area.mapper[k].va, area.mapper[l].va);
    }
    forall a: Vaddr | Covers(area, a)
      ensures PageBase(a) in pages && Flat(pages, bytes, a) == Some(ByteIn(area, bytes, a))
    {
      var k := SlotOf(area, a);
    }
  }

  /** `data` is what the flat memory holds from `addr` on. */
  ghost predicate FlatHolds(pages: Pages, bytes: map<Paddr, seq<Byte>>, addr: Vaddr, data: seq<Byte>) {
    forall i {:trigger data[i]} | 0 <= i < |data| :: Flat(pages, bytes, addr + i) == Some(data[i])
  }

  lemma FlatHoldsMore(areas: seq<MapArea>, pages: Pages, bytes: map<Paddr, seq<Byte>>, addr: Vaddr, data: seq<Byte>,
                      i: nat, piece: seq<Byte>)
    requires AreasOk(areas) && PagesMatch(areas, pages) && PagesBacked(pages, bytes) && i < |areas|
    requires FramesOk(areas[i], bytes) && FlatHolds(pages, bytes, addr, data)
    requires Holds(areas[i], bytes, addr + |data|, piece)
    ensures FlatHolds(pages, bytes, addr, data + piece)
  {
    AreaIsFlat(areas, pages, bytes, i);
    var all := data + piece;
    forall k | 0 <= k < |all| ensures Flat(pages, bytes, addr + k) == Some(all[k]) {
      if k < |data| {
        assert Flat(pages, bytes, addr + k) == Some(data[k]);
      } else {
        var j := k - |data|;
        assert HoldsAt(areas[i], bytes, addr + |data| + j, piece[j]);
      }
    }
  }

  lemma FlatNeedsArea(areas: seq<MapArea>, pages: Pages, bytes: map<Paddr, seq<Byte>>, a: Vaddr)
    requires AreasOk(areas) && PagesMatch(areas, pages)
    ensures Flat(pages, bytes, a).Some? ==> InSomeArea(areas, a)
  {
    var b := PageBase(a);
    if b in pages {
      var x :| x in areas && Covers(x, b);
      AlignedEnd(x, a);
    }
  }

  lemma AlignedEnd(area: MapArea, a: Vaddr)
    requires AreaOk(area)
    ensures Covers(area, PageBase(a)) <==> Covers(area, a)
  {
    assert (area.startVa + area.size) % PAGE_SIZE == 0;
  }

  lemma WriteKeepsBacked(areas: seq<MapArea>, pages: Pages, before: map<Paddr, seq<Byte>>, after: map<Paddr, seq<Byte>>,
                         i: nat, addr: Vaddr, data: seq<Byte>)
    requires AreasOk(areas) && PagesMatch(areas, pages) && PagesBacked(pages, before) && i < |areas|
    requires FramesOk(areas[i], before) && AreaWritten(areas[i], before, after, addr, data)
    ensures PagesBacked(pages, after)
  {
  }

  /** Writing inside one area changes the flat memory inside the written range only. */
  lemma AreaWriteIsFlatWrite(areas: seq<MapArea>, pages: Pages, before: map<Paddr, seq<Byte>>,
                             after: map<Paddr, seq<Byte>>, i: nat, addr: Vaddr, data: seq<Byte>, a: Vaddr)
    requires AreasOk(areas) && PagesMatch(areas, pages) && PagesBacked(pages, before) && i < |areas|
    requires FramesOk(areas[i], before) && AreaWritten(areas[i], before, after, addr, data) && PagesBacked(pages, after)
    requires Covers(areas[i], addr) && addr + |data| <= areas[i].startVa + areas[i].size
    ensures Flat(pages, after, a) == if addr <= a < addr + |data| then Some(data[a - addr]) else Flat(pages, before, a)
  {
    AreaIsFlat(areas, pages, before, i);
    AreaIsFlat(areas, pages, after, i);
    if !Covers(areas[i], a) && PageBase(a) in pages {
      AlignedEnd(areas[i], a);
      var f := pages[PageBase(a)];
      forall k | 0 <= k < |areas[i].mapper| ensures areas[i].mapper[k].frame != f {
        assert Covers(areas[i], areas[i].mapper[k].va);
        assert PagesApart(pages, PageBase(a), areas[i].mapper[k].va);
      }
    }
  }

  /** The flat memory after writing `data` at `addr`, and nothing else. */
  ghost predicate FlatWritten(pages: Pages, before: map<Paddr, seq<Byte>>, after: map<Paddr, seq<Byte>>, addr: Vaddr,
                              data: seq<Byte>)
  {
    forall a: Vaddr ::
      Flat(pages, after, a) == if addr <= a < addr + |data| then Some(data[a - addr]) else Flat(pages, before, a)
  }

  lemma NothingFlatWritten(pages: Pages, bytes: map<Paddr, seq<Byte>>, addr: Vaddr)
    ensures FlatWritten(pages, bytes, bytes, addr, [])
  {
  }

  lemma FlatWrittenMore(pages: Pages, before: map<Paddr, seq<Byte>>, mid: map<Paddr, seq<Byte>>,
                        after: map<Paddr, seq<Byte>>, addr: Vaddr, data: seq<Byte>, n: nat, len: nat)
    requires n + len <= |data|
    requires FlatWritten(pages, before, mid, addr, data[..n])
    requires FlatWritten(pages, mid, after, addr + n, data[n..n + len])
    ensures FlatWritten(pages, before, after, addr, data[..n + len])
  {
    forall a: Vaddr
      ensures Flat(pages, after, a) == if addr <= a < addr + n + len then Some(data[..n + len][a - addr])
                                       else Flat(pages, before, a)
    {
      assert Flat(pages, mid, a) == if addr <= a < addr + n then Some(data[..n][a - addr]) else Flat(pages, before, a);
    }
  }

  /** The end of an area is in no area up to that one. */
  lemma EndIsLater(areas: seq<MapArea>, i: nat)
    requires AreasOk(areas) && i < |areas|
    ensures forall j | 0 <= j <= i :: !Covers(areas[j], areas[i].startVa + areas[i].size)
  {
    forall j | 0 <= j <= i ensures !Covers(areas[j], areas[i].startVa + areas[i].size) {
      assert j < i ==> Before(areas, j, i);
    }
  }

  ghost predicate AllWritable(areas: seq<MapArea>, from: Vaddr, to: Vaddr) {
    forall a | from <= a < to :: Writable(areas, a)
  }

  lemma AllWritableMore(areas: seq<MapArea>, i: nat, from: Vaddr, mid: Vaddr, to: Vaddr)
    requires i < |areas| && areas[i].flags.writable && areas[i].startVa <= mid && to <= areas[i].startVa + areas[i].size
    requires AllWritable(areas, from, mid)
    ensures AllWritable(areas, from, to)
  {
    forall a | from <= a < to ensures Writable(areas, a) {
      if mid <= a { assert Covers(areas[i], a); }
    }
  }

  lemma OnlyOneArea(areas: seq<MapArea>, i: nat, a: Vaddr)
    requires AreasOk(areas) && i < |areas| && Covers(areas[i], a)
    ensures Writable(areas, a) <==> areas[i].flags.writable
  {
    forall j | 0 <= j < |areas| && Covers(areas[j], a) ensures j == i {
      assert j < i ==> Before(areas, j, i);
      assert i < j ==> Before(areas, i, j);
    }
  }

  /** `y` is a copy of `x`: same pages and flags, and frames with the same contents. */
  ghost predicate Twin(x: MapArea, y: MapArea, bytes: map<Paddr, seq<Byte>>) {
    && y.startVa == x.startVa && y.size == x.size && y.flags == x.flags && |y.mapper| == |x.mapper|
    && (forall k | 0 <= k < |x.mapper| ::
          && y.mapper[k].va == x.mapper[k].va
          && x.mapper[k].frame in bytes && y.mapper[k].frame in bytes
          && bytes[y.mapper[k].frame] == bytes[x.mapper[k].frame])
  }

  ghost predicate Twins(xs: seq<MapArea>, ys: seq<MapArea>, bytes: map<Paddr, seq<Byte>>) {
    |xs| == |ys| && forall i | 0 <= i < |xs| :: Twin(xs[i], ys[i], bytes)
  }

  /** Copies of all areas make up the same flat memory. */
  lemma TwinsSameFlat(xs: seq<MapArea>, ps: Pages, ys: seq<MapArea>, qs: Pages, bytes: map<Paddr, seq<Byte>>, a: Vaddr)
    requires AreasOk(xs) && PagesMatch(xs, ps) && PagesBacked(ps, bytes)
    requires AreasOk(ys) && PagesMatch(ys, qs) && PagesBacked(qs, bytes)
    requires Twins(xs, ys, bytes)
    ensures Flat(ps, bytes, a) == Flat(qs, bytes, a)
  {
    FlatNeedsArea(xs, ps, bytes, a);
    FlatNeedsArea(ys, qs, bytes, a);
    if i :| 0 <= i < |xs| && Covers(xs[i], a) {
      AreaIsFlat(xs, ps, bytes, i);
      AreaIsFlat(ys, qs, bytes, i);
      assert Twin(xs[i], ys[i], bytes);
    } else {
      assert !InSomeArea(xs, a);
      forall y | y in ys ensures !Covers(y, a) {
        var i :| 0 <= i < |ys| && ys[i] == y;
        assert Twin(xs[i], ys[i], bytes) && xs[i] in xs;
      }
    }
  }

  /** A read after a successful write of the same range gives the data back. */
  lemma ReadAfterWrite(pages: Pages, before: map<Paddr, seq<Byte>>, after: map<Paddr, seq<Byte>>, addr: Vaddr,
                       data: seq<Byte>, read: seq<Byte>)
    requires FlatWritten(pages, before, after, addr, data) && FlatHolds(pages, after, addr, read)
    ensures |read| == |data| ==> read == data
    ensures |read| < |data| ==> Flat(pages, after, addr + |read|).Some?
  {
    forall i | 0 <= i < |read| && i < |data| ensures read[i] == data[i] {
      assert Flat(pages, after, addr + i) == Some(data[i]);
    }
    if |read| < |data| { assert Flat(pages, after, addr + |read|) == Some(data[|read|]); }
  }

  /** Writes that stay within one set of frames do not show through pages that use other frames. */
  lemma SeparateFramesSeparateMemory(ps: Pages, qs: Pages, before: map<Paddr, seq<Byte>>, after: map<Paddr, seq<Byte>>,
                                     a: Vaddr)
    requires ps.Values !! qs.Values && after.Keys == before.Keys
    requires forall f | f in before && f !in ps.Values :: after[f] == before[f]
    ensures Flat(qs, after, a) == Flat(qs, before, a)
  {
    if PageBase(a) in qs { assert qs[PageBase(a)] in qs.Values; }
  }
}
