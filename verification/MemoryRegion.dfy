/** `align_ext`: rounding to a power of two by masking. */
module AlignExt {
  import opened Bits
  import opened Options

  /** `align_up` in a word of `width` bits; `None` stands for its panics. */
  function AlignUp(x: nat, align: nat, width: nat): Option<nat> {
    if IsPowerOfTwo(align) && align >= 2 && x + (align - 1) < Pow2(width) && align - 1 < Pow2(width)
    then Some(And(x + (align - 1), Not(align - 1, width))) else None
  }

  /** `align_down` in a word of `width` bits; `None` stands for its panic. */
  function AlignDown(x: nat, align: nat, width: nat): Option<nat>
    requires align < Pow2(width)
  {
    if IsPowerOfTwo(align) && align >= 2 then Some(And(x, Not(align - 1, width))) else None
  }

  lemma {:induction false} ExponentBelow(k: nat, width: nat, p: nat, w: nat)
    requires p == Pow2(k) && w == Pow2(width) && p < w
    ensures k < width
  {
    if k > width { Pow2Monotone(width, k); }
  }

  /** Rounding up gives the multiple of `align` in `[x, x + align)`, and fails exactly on a bad alignment or on
      overflow. */
  lemma {:induction false} AlignUpIsLeast(x: nat, align: nat, width: nat, w: nat) returns (q: nat)
    requires w == Pow2(width) && align < w
    ensures AlignUp(x, align, width) == None
       <==> !(exists k: nat :: align == Pow2(k)) || align < 2 || x + align - 1 >= w
    ensures AlignUp(x, align, width).Some? ==>
              var r := AlignUp(x, align, width).value; r == align * q && x <= r < x + align
  {
    PowerOfTwoTest(align);
    q := 0;
    if AlignUp(x, align, width).Some? {
      var k: nat :| align == Pow2(k);
      ExponentBelow(k, width, align, w);
      AndHighMask(x + (align - 1), k, width, align, w);
      ShrLow(x + (align - 1), k, align);
      q := Shr(x + (align - 1), k);
    }
  }

  /** Rounding down gives the multiple of `align` in `(x - align, x]`. */
  lemma {:induction false} AlignDownIsGreatest(x: nat, align: nat, width: nat, w: nat) returns (q: nat)
    requires w == Pow2(width) && align < w && x < w
    ensures AlignDown(x, align, width) == None <==> !(exists k: nat :: align == Pow2(k)) || align < 2
    ensures AlignDown(x, align, width).Some? ==>
              var r := AlignDown(x, align, width).value; r == align * q && x < r + align && r <= x
  {
    PowerOfTwoTest(align);
    q := 0;
    if AlignDown(x, align, width).Some? {
      var k: nat :| align == Pow2(k);
      ExponentBelow(k, width, align, w);
      AndHighMask(x, k, width, align, w);
      ShrLow(x, k, align);
      q := Shr(x, k);
    }
  }
}

/** Carving the usable memory out of the boot loader's memory map. */
module MemoryRegions {

  datatype RegionType = BadMemory | NonVolatileSleep | Reserved | Kernel | Module | Framebuffer | Reclaimable | Usable

  datatype MemoryRegion = MemoryRegion(base: nat, len: nat, typ: RegionType)

  const USABLE := {Usable, Reclaimable}
  const UNUSABLE := {BadMemory, NonVolatileSleep, Reserved, Kernel, Module, Framebuffer}

  predicate IsUsable(t: RegionType) { t == Usable || t == Reclaimable }

  predicate Covers(r: MemoryRegion, a: nat) { r.base <= a < r.base + r.len }

  /** `MemoryRegion::truncate`. */
  function Truncate(r: MemoryRegion, t: MemoryRegion): seq<MemoryRegion> {
    if r.base < t.base then
      if r.base + r.len > t.base then
        if r.base + r.len > t.base + t.len then
          [MemoryRegion(r.base, t.base - r.base, r.typ),
           MemoryRegion(t.base + t.len, r.base + r.len - (t.base + t.len), r.typ)]
        else [MemoryRegion(r.base, t.base - r.base, r.typ)]
      else [r]
    else if r.base < t.base + t.len then
      if r.base + r.len > t.base + t.len then
        [MemoryRegion(t.base + t.len, r.base + r.len - (t.base + t.len), r.typ)]
      else []
    else [r]
  }

  /** How many regions of some types cover an address. */
  function Count(regions: seq<MemoryRegion>, types: set<RegionType>, a: nat): nat {
    if regions == [] then 0
    else (if regions[0].typ in types && Covers(regions[0], a) then 1 else 0) + Count(regions[1..], types, a)
  }

  predicate Covered(regions: seq<MemoryRegion>, a: nat) { exists i :: 0 <= i < |regions| && Covers(regions[i], a) }

  function Carve(src: seq<MemoryRegion>, t: MemoryRegion): seq<MemoryRegion> {
    if src == [] then [] else Carve(src[..|src| - 1], t) + Truncate(src[|src| - 1], t)
  }

  function CarveAll(src: seq<MemoryRegion>, ts: seq<MemoryRegion>): seq<MemoryRegion> {
    if ts == [] then src else Carve(CarveAll(src, ts[..|ts| - 1]), ts[|ts| - 1])
  }

  function Pick(regions: seq<MemoryRegion>, usable: bool): seq<MemoryRegion> {
    if regions == [] then []
    else
      var last := regions[|regions| - 1];
      Pick(regions[..|regions| - 1], usable) + if IsUsable(last.typ) == usable then [last] else []
  }

  /** `non_overlapping_regions_from`: the unusable regions as they are, then the usable ones with those cut out. */
  method NonOverlappingRegionsFrom(regions: seq<MemoryRegion>) returns (all: seq<MemoryRegion>)
    ensures all == Carved(regions)
  {
    var usable: seq<MemoryRegion>, unusable: seq<MemoryRegion> := [], [];
    for i := 0 to |regions|
      invariant usable == Pick(regions[..i], true) && unusable == Pick(regions[..i], false)
    {
      assert regions[..i + 1][..i] == regions[..i];
      if IsUsable(regions[i].typ) { usable := usable + [regions[i]]; } else { unusable := unusable + [regions[i]]; }
    }
    assert regions[..|regions|] == regions;
    var src: seq<MemoryRegion>, dst: seq<MemoryRegion> := usable, [];
    for i := 0 to |unusable|
      invariant src == CarveAll(usable, unusable[..i])
    {
      dst := [];
      for j := 0 to |src|
        invariant dst == Carve(src[..j], unusable[i])
      {
        assert src[..j + 1][..j] == src[..j];
        dst := dst + Truncate(src[j], unusable[i]);
      }
      assert src[..|src|] == src && unusable[..i + 1][..i] == unusable[..i];
      src, dst := dst, src;
    }
    assert unusable[..|unusable|] == unusable;
    return unusable + src;
  }

  lemma {:induction false} CountAppend(x: seq<MemoryRegion>, y: seq<MemoryRegion>, types: set<RegionType>, a: nat)
    ensures Count(x + y, types, a) == Count(x, types, a) + Count(y, types, a)
  {
    if x == [] {
      assert x + y == y;
    } else {
      assert (x + y)[1..] == x[1..] + y;
      CountAppend(x[1..], y, types, a);
    }
  }

  /** Truncation removes exactly the addresses of `t`. */
  lemma TruncateCounts(r: MemoryRegion, t: MemoryRegion, types: set<RegionType>, a: nat)
    ensures Count(Truncate(r, t), types, a) == if r.typ in types && Covers(r, a) && !Covers(t, a) then 1 else 0
  {
    var s := Truncate(r, t);
    assert Count(s, types, a) == if s == [] then 0 else
      (if s[0].typ in types && Covers(s[0], a) then 1 else 0) + Count(s[1..], types, a);
    if |s| == 2 { assert s[1..] == [s[1]]; }
  }

  lemma {:induction false} CarveCounts(src: seq<MemoryRegion>, t: MemoryRegion, types: set<RegionType>, a: nat)
    ensures Count(Carve(src, t), types, a) == if Covers(t, a) then 0 else Count(src, types, a)
  {
    if src != [] {
      var n := |src| - 1;
      CarveCounts(src[..n], t, types, a);
      TruncateCounts(src[n], t, types, a);
      CountAppend(Carve(src[..n], t), Truncate(src[n], t), types, a);
      assert src == src[..n] + [src[n]];
      CountAppend(src[..n], [src[n]], types, a);
    }
  }

  lemma {:induction false} CarveAllCounts(src: seq<MemoryRegion>, ts: seq<MemoryRegion>, types: set<RegionType>, a: nat)
    ensures Count(CarveAll(src, ts), types, a) == if Covered(ts, a) then 0 else Count(src, types, a)
  {
    if ts != [] {
      var n := |ts| - 1;
      CarveAllCounts(src, ts[..n], types, a);
      CarveCounts(CarveAll(src, ts[..n]), ts[n], types, a);
      assert Covered(ts, a) <==> Covered(ts[..n], a) || Covers(ts[n], a);
    }
  }

  lemma {:induction false} PickCounts(regions: seq<MemoryRegion>, usable: bool, types: set<RegionType>, a: nat)
    ensures Count(Pick(regions, usable), types, a) == Count(regions, types * (if usable then USABLE else UNUSABLE), a)
  {
    if regions != [] {
      var n := |regions| - 1;
      var last := regions[n];
      PickCounts(regions[..n], usable, types, a);
      assert regions == regions[..n] + [last];
      CountAppend(regions[..n], [last], types * (if usable then USABLE else UNUSABLE), a);
      CountAppend(Pick(regions[..n], usable), if IsUsable(last.typ) == usable then [last] else [], types, a);
    }
  }

  /** The result of the carving. */
  function Carved(regions: seq<MemoryRegion>): seq<MemoryRegion> {
    Pick(regions, false) + CarveAll(Pick(regions, true), Pick(regions, false))
  }

  /** Whether an unusable region covers the address. */
  predicate Unusable(regions: seq<MemoryRegion>, a: nat) {
    exists i :: 0 <= i < |regions| && !IsUsable(regions[i].typ) && Covers(regions[i], a)
  }

  lemma {:induction false} PickCovered(regions: seq<MemoryRegion>, a: nat)
    ensures Covered(Pick(regions, false), a) <==> Unusable(regions, a)
  {
    if regions != [] {
      var n := |regions| - 1;
      PickCovered(regions[..n], a);
      var rest := Pick(regions[..n], false);
      assert Unusable(regions, a)
        <==> Unusable(regions[..n], a) || (!IsUsable(regions[n].typ) && Covers(regions[n], a));
      if !IsUsable(regions[n].typ) {
        var all := rest + [regions[n]];
        assert Covered(all, a) <==> Covered(rest, a) || Covers(regions[n], a) by {
          if Covered(rest, a) { var i :| 0 <= i < |rest| && Covers(rest[i], a); assert Covers(all[i], a); }
          if Covers(regions[n], a) { assert Covers(all[|rest|], a); }
        }
      } else {
        assert rest + [] == rest;
      }
    }
  }

  /** Carving is exact at every address: unusable regions stay, and usable ones lose exactly the unusable addresses. */
  lemma {:induction false} CarvingIsExact(regions: seq<MemoryRegion>, types: set<RegionType>, a: nat)
    ensures Count(Carved(regions), types, a) ==
            Count(regions, types * UNUSABLE, a) + if Unusable(regions, a) then 0 else Count(regions, types * USABLE, a)
  {
    var usable, unusable := Pick(regions, true), Pick(regions, false);
    CountAppend(unusable, CarveAll(usable, unusable), types, a);
    PickCounts(regions, false, types, a);
    PickCounts(regions, true, types, a);
    CarveAllCounts(usable, unusable, types, a);
    PickCovered(regions, a);
  }

  ghost predicate NonEmpty(regions: seq<MemoryRegion>) { forall i | 0 <= i < |regions| :: regions[i].len > 0 }

  lemma {:induction false} CarveNonEmpty(src: seq<MemoryRegion>, t: MemoryRegion)
    requires NonEmpty(src)
    ensures NonEmpty(Carve(src, t))
  {
    if src != [] {
      var n := |src| - 1;
      CarveNonEmpty(src[..n], t);
      assert src[n].len > 0 && NonEmpty(Truncate(src[n], t));
    }
  }

  lemma {:induction false} CarveAllNonEmpty(src: seq<MemoryRegion>, ts: seq<MemoryRegion>)
    requires NonEmpty(src)
    ensures NonEmpty(CarveAll(src, ts))
  {
    if ts != [] {
      CarveAllNonEmpty(src, ts[..|ts| - 1]);
      CarveNonEmpty(CarveAll(src, ts[..|ts| - 1]), ts[|ts| - 1]);
    }
  }

  lemma {:induction false} PickNonEmpty(regions: seq<MemoryRegion>, usable: bool)
    requires NonEmpty(regions)
    ensures NonEmpty(Pick(regions, usable))
  {
    if regions != [] { PickNonEmpty(regions[..|regions| - 1], usable); }
  }

  /** The carving leaves no empty pieces. */
  lemma CarvedNonEmpty(regions: seq<MemoryRegion>)
    requires NonEmpty(regions)
    ensures NonEmpty(Carved(regions))
  {
    PickNonEmpty(regions, true);
    PickNonEmpty(regions, false);
    CarveAllNonEmpty(Pick(regions, true), Pick(regions, false));
  }

  // ---- Overlap ----

  const ALL := UNUSABLE + USABLE

  ghost predicate NonOverlapping(regions: seq<MemoryRegion>) {
    forall i, j | 0 <= i < j < |regions| :: Apart(regions[i], regions[j])
  }

  ghost predicate Apart(x: MemoryRegion, y: MemoryRegion) { forall a: nat :: !(Covers(x, a) && Covers(y, a)) }

  lemma {:induction false} CountAtMostOne(regions: seq<MemoryRegion>)
    ensures NonOverlapping(regions) <==> forall a: nat :: Count(regions, ALL, a) <= 1
  {
    if NonOverlapping(regions) {
      forall a: nat ensures Count(regions, ALL, a) <= 1 { ApartCounts(regions, a); }
    } else {
      var i, j :| 0 <= i < j < |regions| && !Apart(regions[i], regions[j]);
      var a: nat :| Covers(regions[i], a) && Covers(regions[j], a);
      CountsTwo(regions, i, j, a);
    }
  }

  lemma {:induction false} ApartCounts(regions: seq<MemoryRegion>, a: nat)
    requires NonOverlapping(regions)
    ensures Count(regions, ALL, a) <= 1
  {
    if regions != [] {
      var rest := regions[1..];
      forall i, j | 0 <= i < j < |rest| ensures Apart(rest[i], rest[j]) {
        assert Apart(regions[i + 1], regions[j + 1]);
      }
      ApartCounts(rest, a);
      if Covers(regions[0], a) {
        forall i | 0 <= i < |rest| ensures !Covers(rest[i], a) { assert Apart(regions[0], regions[i + 1]); }
        NoneCounts(rest, a);
      }
    }
  }

  lemma {:induction false} NoneCounts(regions: seq<MemoryRegion>, a: nat)
    requires forall i | 0 <= i < |regions| :: !Covers(regions[i], a)
    ensures Count(regions, ALL, a) == 0
  {
    if regions != [] { NoneCounts(regions[1..], a); }
  }

  lemma {:induction false} CountsOne(regions: seq<MemoryRegion>, types: set<RegionType>, i: nat, a: nat)
    requires i < |regions| && regions[i].typ in types && Covers(regions[i], a)
    ensures Count(regions, types, a) >= 1
  {
    if i > 0 { CountsOne(regions[1..], types, i - 1, a); }
  }

  lemma EveryType(t: RegionType)
    ensures t in ALL
  {
    match t {
      case BadMemory => case NonVolatileSleep => case Reserved => case Kernel =>
      case Module => case Framebuffer => case Reclaimable => case Usable =>
    }
  }

  lemma {:induction false} CountsTwo(regions: seq<MemoryRegion>, i: nat, j: nat, a: nat)
    requires i < j < |regions| && Covers(regions[i], a) && Covers(regions[j], a)
    ensures Count(regions, ALL, a) >= 2
  {
    assert regions[0].typ in ALL && regions[j].typ in ALL by { EveryType(regions[0].typ); EveryType(regions[j].typ); }
    if i > 0 { CountsTwo(regions[1..], i - 1, j - 1, a); } else { CountsOne(regions[1..], ALL, j - 1, a); }
  }

  /** What the carving needs of its input to give regions that do not overlap: at every address at most one
      unusable region, and at most one usable one where there is none. */
  ghost predicate CarvesApart(regions: seq<MemoryRegion>) {
    forall a: nat :: CarvesApartAt(regions, a)
  }

  predicate CarvesApartAt(regions: seq<MemoryRegion>, a: nat) {
    if Unusable(regions, a) then Count(regions, UNUSABLE, a) == 1 else Count(regions, USABLE, a) <= 1
  }

  /** The result does not overlap exactly when the input is like that. */
  lemma {:induction false} CarvedOverlap(regions: seq<MemoryRegion>)
    ensures NonOverlapping(Carved(regions)) <==> CarvesApart(regions)
  {
    CountAtMostOne(Carved(regions));
    forall a: nat ensures Count(Carved(regions), ALL, a) <= 1 <==> CarvesApartAt(regions, a) {
      CarvingIsExact(regions, ALL, a);
      assert ALL * UNUSABLE == UNUSABLE && ALL * USABLE == USABLE;
      UnusableCounts(regions, a);
    }
    if CarvesApart(regions) {
      forall a: nat ensures Count(Carved(regions), ALL, a) <= 1 { assert CarvesApartAt(regions, a); }
    }
    if NonOverlapping(Carved(regions)) {
      forall a: nat ensures CarvesApartAt(regions, a) { assert Count(Carved(regions), ALL, a) <= 1; }
    }
  }

  lemma {:induction false} UnusableCounts(regions: seq<MemoryRegion>, a: nat)
    ensures Unusable(regions, a) <==> Count(regions, UNUSABLE, a) > 0
  {
    if regions != [] {
      UnusableCounts(regions[1..], a);
      assert Unusable(regions, a)
        <==> (!IsUsable(regions[0].typ) && Covers(regions[0], a)) || Unusable(regions[1..], a) by {
        if Unusable(regions[1..], a) {
          var i :| 0 <= i < |regions[1..]| && !IsUsable(regions[1..][i].typ) && Covers(regions[1..][i], a);
          assert Covers(regions[i + 1], a) && !IsUsable(regions[i + 1].typ);
        }
        if Unusable(regions, a) {
          var i :| 0 <= i < |regions| && !IsUsable(regions[i].typ) && Covers(regions[i], a);
          assert i > 0 ==> regions[1..][i - 1] == regions[i];
        }
      }
    }
  }

  /** Two usable regions that overlap stay as they are. */
  lemma OverlapRemains()
    ensures !NonOverlapping(Carved([MemoryRegion(0, 2, Usable), MemoryRegion(1, 2, Usable)]))
  {
    var x, y := MemoryRegion(0, 2, Usable), MemoryRegion(1, 2, Usable);
    CarvedOverlap([x, y]);
    assert [x, y][1..] == [y];
    assert Count([y], USABLE, 1) == 1 && !CarvesApartAt([x, y], 1);
  }
}

/** `frame_allocator::init`: the whole frames of the usable regions. */
module FrameAllocatorInit {
  import opened Bits
  import opened AlignExt
  import opened MemoryRegions
  import opened Options

  const PAGE_SIZE := 4096

  predicate IsFrameOf(r: MemoryRegion, f: nat) { r.base <= f * PAGE_SIZE && (f + 1) * PAGE_SIZE <= r.base + r.len }

  /** How many usable regions contain the whole frame. */
  function Containing(regions: seq<MemoryRegion>, f: nat): nat {
    if regions == [] then 0
    else Containing(regions[..|regions| - 1], f) +
         var r := regions[|regions| - 1]; if r.typ == Usable && IsFrameOf(r, f) then 1 else 0
  }

  class FrameAllocator {
    var frames: multiset<nat>

    constructor ()
      ensures frames == multiset{}
    {
      frames := multiset{};
    }

    method AddFrame(start: nat, end: nat)
      requires start <= end
      modifies this
      ensures forall f: nat :: frames[f] == old(frames)[f] + if start <= f < end then 1 else 0
    {
      for i := start to end
        invariant forall f: nat :: frames[f] == old(frames)[f] + if start <= f < i then 1 else 0
      {
        frames := frames + multiset{i};
      }
    }
  }

  lemma PageIsPowerOfTwo()
    ensures exists k: nat :: PAGE_SIZE == Pow2(k)
  {
    Pow2Values();
    assert PAGE_SIZE == Pow2(12);
  }

  lemma RangeIsFrames(r: MemoryRegion, q: nat, p: nat)
    requires r.base <= PAGE_SIZE * q < r.base + PAGE_SIZE
    requires PAGE_SIZE * p <= r.base + r.len < PAGE_SIZE * p + PAGE_SIZE
    ensures forall f: nat :: q <= f < p <==> IsFrameOf(r, f)
  {
  }

  /** An address of the region's bounds, rounded, does not fit in a word. */
  ghost predicate Overflows(r: MemoryRegion, w: nat) { r.base + PAGE_SIZE - 1 >= w || r.base + r.len >= w }

  /** The range of whole frames in a region, in words of `width` bits; `None` stands for the overflow panics. */
  method FrameRange(r: MemoryRegion, width: nat, ghost w: nat) returns (range: Option<(nat, nat)>)
    requires w == Pow2(width) && PAGE_SIZE < w && r.base < w && r.len < w
    ensures range.None? <==> Overflows(r, w)
    ensures range.Some? ==> forall f: nat :: range.value.0 <= f < range.value.1 <==> IsFrameOf(r, f)
  {
    PageIsPowerOfTwo();
    ghost var q := AlignUpIsLeast(r.base, PAGE_SIZE, width, w);
    var up := AlignUp(r.base, PAGE_SIZE, width);
    if up.None? || r.base + r.len >= Pow2(width) { return None; }
    ghost var p := AlignDownIsGreatest(r.base + r.len, PAGE_SIZE, width, w);
    var down := AlignDown(r.base + r.len, PAGE_SIZE, width);
    RangeIsFrames(r, q, p);
    assert up.value / PAGE_SIZE == q && down.value / PAGE_SIZE == p;
    return Some((up.value / PAGE_SIZE, down.value / PAGE_SIZE));
  }

  /** `init`: every frame is added once for each usable region that contains all of it. */
  method Init(regions: seq<MemoryRegion>, width: nat, ghost w: nat) returns (allocator: Option<FrameAllocator>)
    requires w == Pow2(width) && PAGE_SIZE < w
    requires forall i | 0 <= i < |regions| :: regions[i].base < w && regions[i].len < w
    ensures allocator.None?
       <==> exists i :: 0 <= i < |regions| && regions[i].typ == Usable && Overflows(regions[i], w)
    ensures allocator.Some? ==> forall f: nat :: allocator.value.frames[f] == Containing(regions, f)
  {
    var a := new FrameAllocator();
    for i := 0 to |regions|
      invariant forall j | 0 <= j < i :: regions[j].typ == Usable ==> !Overflows(regions[j], w)
      invariant forall f: nat :: a.frames[f] == Containing(regions[..i], f)
    {
      assert regions[..i + 1][..i] == regions[..i];
      if regions[i].typ == Usable {
        var range := FrameRange(regions[i], width, w);
        if range.None? { return None; }
        var (start, end) := range.value;
        if start < end { a.AddFrame(start, end); }
      }
    }
    assert regions[..|regions|] == regions;
    return Some(a);
  }

  lemma {:induction false} ContainingIsCovering(regions: seq<MemoryRegion>, f: nat, a: nat)
    requires f * PAGE_SIZE <= a < (f + 1) * PAGE_SIZE
    ensures Containing(regions, f) <= Count(regions, {Usable}, a)
  {
    if regions != [] {
      var n := |regions| - 1;
      ContainingIsCovering(regions[..n], f, a);
      assert regions == regions[..n] + [regions[n]];
      CountAppend(regions[..n], [regions[n]], {Usable}, a);
    }
  }

  /** After carving, a frame that is added has no unusable byte, and it is added only once if usable regions
      do not overlap there. */
  lemma {:induction false} AddedFramesAreUsable(regions: seq<MemoryRegion>, f: nat, a: nat)
    requires Containing(Carved(regions), f) > 0 && f * PAGE_SIZE <= a < (f + 1) * PAGE_SIZE
    ensures !Unusable(regions, a)
    ensures Containing(Carved(regions), f) <= Count(regions, {Usable}, a)
  {
    ContainingIsCovering(Carved(regions), f, a);
    CarvingIsExact(regions, {Usable}, a);
    assert {Usable} * UNUSABLE == {} && {Usable} * USABLE == {Usable};
    NoTypesCount(regions, a);
  }

  lemma {:induction false} NoTypesCount(regions: seq<MemoryRegion>, a: nat)
    ensures Count(regions, {}, a) == 0
  {
    if regions != [] { NoTypesCount(regions[1..], a); }
  }

  // ---- Which frames the carving leaves ----

  /** The region lies neither below the frame nor above it. An empty region cuts a frame when it lies inside. */
  predicate Cuts(t: MemoryRegion, f: nat) { t.base < (f + 1) * PAGE_SIZE && f * PAGE_SIZE < t.base + t.len }

  predicate AnyCuts(ts: seq<MemoryRegion>, f: nat) { exists i :: 0 <= i < |ts| && Cuts(ts[i], f) }

  predicate UnusableCuts(regions: seq<MemoryRegion>, f: nat) {
    exists i :: 0 <= i < |regions| && !IsUsable(regions[i].typ) && Cuts(regions[i], f)
  }

  lemma {:induction false} ContainingAppend(x: seq<MemoryRegion>, y: seq<MemoryRegion>, f: nat)
    ensures Containing(x + y, f) == Containing(x, f) + Containing(y, f)
  {
    if y == [] {
      assert x + y == x;
    } else {
      var n := |y| - 1;
      assert (x + y)[..|x| + n] == x + y[..n] && (x + y)[|x| + n] == y[n];
      ContainingAppend(x, y[..n], f);
    }
  }

  /** A frame of a region is still a frame of a piece exactly when the region cut out does not cut the frame. */
  lemma {:induction false} TruncateContains(r: MemoryRegion, t: MemoryRegion, f: nat)
    ensures Containing(Truncate(r, t), f) == if r.typ == Usable && IsFrameOf(r, f) && !Cuts(t, f) then 1 else 0
  {
    var s := Truncate(r, t);
    if |s| == 2 {
      assert s == [s[0]] + [s[1]];
      ContainingAppend([s[0]], [s[1]], f);
      ContainingOne(s[0], f);
      ContainingOne(s[1], f);
    } else if |s| == 1 {
      assert s == [s[0]];
      ContainingOne(s[0], f);
    }
  }

  lemma ContainingOne(r: MemoryRegion, f: nat)
    ensures Containing([r], f) == if r.typ == Usable && IsFrameOf(r, f) then 1 else 0
  {
    assert [r][..0] == [];
  }

  lemma {:induction false} CarveContains(src: seq<MemoryRegion>, t: MemoryRegion, f: nat)
    ensures Containing(Carve(src, t), f) == if Cuts(t, f) then 0 else Containing(src, f)
  {
    if src != [] {
      var n := |src| - 1;
      CarveContains(src[..n], t, f);
      TruncateContains(src[n], t, f);
      ContainingAppend(Carve(src[..n], t), Truncate(src[n], t), f);
    }
  }

  lemma {:induction false} CarveAllContains(src: seq<MemoryRegion>, ts: seq<MemoryRegion>, f: nat)
    ensures Containing(CarveAll(src, ts), f) == if AnyCuts(ts, f) then 0 else Containing(src, f)
  {
    if ts != [] {
      var n := |ts| - 1;
      CarveAllContains(src, ts[..n], f);
      CarveContains(CarveAll(src, ts[..n]), ts[n], f);
      assert ts == ts[..n] + [ts[n]];
      AnyCutsMore(ts[..n], ts[n], f);
    }
  }

  lemma {:induction false} PickContains(regions: seq<MemoryRegion>, usable: bool, f: nat)
    ensures Containing(Pick(regions, usable), f) == if usable then Containing(regions, f) else 0
  {
    if regions != [] {
      var n, last := |regions| - 1, regions[|regions| - 1];
      PickContains(regions[..n], usable, f);
      var rest := Pick(regions[..n], usable);
      if IsUsable(last.typ) == usable {
        ContainingAppend(rest, [last], f);
        ContainingOne(last, f);
      } else {
        assert rest + [] == rest;
      }
    }
  }

  lemma {:induction false} PickCuts(regions: seq<MemoryRegion>, f: nat)
    ensures AnyCuts(Pick(regions, false), f) <==> UnusableCuts(regions, f)
  {
    if regions != [] {
      var n, last := |regions| - 1, regions[|regions| - 1];
      PickCuts(regions[..n], f);
      assert UnusableCuts(regions, f) <==> UnusableCuts(regions[..n], f) || (!IsUsable(last.typ) && Cuts(last, f));
      var rest := Pick(regions[..n], false);
      if IsUsable(last.typ) { assert rest + [] == rest; } else { AnyCutsMore(rest, last, f); }
    }
  }

  lemma AnyCutsMore(ts: seq<MemoryRegion>, t: MemoryRegion, f: nat)
    ensures AnyCuts(ts + [t], f) <==> AnyCuts(ts, f) || Cuts(t, f)
  {
    var all := ts + [t];
    if i :| 0 <= i < |ts| && Cuts(ts[i], f) { assert Cuts(all[i], f); }
    assert all[|ts|] == t;
  }

  /** No frame is lost or won by the carving: each one is added as often as usable regions contain it, unless an
      unusable region cuts it. */
  lemma {:induction false} FramesAfterCarving(regions: seq<MemoryRegion>, f: nat)
    ensures Containing(Carved(regions), f) == if UnusableCuts(regions, f) then 0 else Containing(regions, f)
  {
    PickContains(regions, true, f);
    PickContains(regions, false, f);
    PickCuts(regions, f);
    CarveAllContains(Pick(regions, true), Pick(regions, false), f);
    ContainingAppend(Pick(regions, false), CarveAll(Pick(regions, true), Pick(regions, false)), f);
  }

  lemma {:induction false} ContainingIsMembership(regions: seq<MemoryRegion>, f: nat)
    ensures Containing(regions, f) > 0
       <==> exists i :: 0 <= i < |regions| && regions[i].typ == Usable && IsFrameOf(regions[i], f)
  {
    if regions != [] {
      var n := |regions| - 1;
      ContainingIsMembership(regions[..n], f);
      if i :| 0 <= i < n && regions[..n][i].typ == Usable && IsFrameOf(regions[..n][i], f) {
        assert regions[i].typ == Usable && IsFrameOf(regions[i], f);
      }
      if i :| 0 <= i < |regions| && regions[i].typ == Usable && IsFrameOf(regions[i], f) {
        assert i < n ==> regions[..n][i].typ == Usable && IsFrameOf(regions[..n][i], f);
      }
    }
  }

  /** A frame of a usable region that has no unusable byte is added if and only if no empty unusable region lies inside
      it; such a region splits the frame. */
  lemma {:induction false} WholeFrameAdded(regions: seq<MemoryRegion>, i: nat, f: nat)
    requires i < |regions| && regions[i].typ == Usable && IsFrameOf(regions[i], f)
    requires forall a: nat | f * PAGE_SIZE <= a < (f + 1) * PAGE_SIZE :: !Unusable(regions, a)
    ensures Containing(Carved(regions), f) > 0
       <==> forall j | 0 <= j < |regions| && !IsUsable(regions[j].typ) && regions[j].len == 0 :: !Cuts(regions[j], f)
  {
    FramesAfterCarving(regions, f);
    ContainingIsMembership(regions, f);
    forall j | 0 <= j < |regions| && !IsUsable(regions[j].typ) && Cuts(regions[j], f) ensures regions[j].len == 0 {
      var t := regions[j];
      var a := if t.base < f * PAGE_SIZE then f * PAGE_SIZE else t.base;
      assert f * PAGE_SIZE <= a < (f + 1) * PAGE_SIZE && !Unusable(regions, a);
      assert !Covers(regions[j], a);
    }
  }

  /** Such an input: an empty reserved region in the middle of a usable frame. */
  lemma {:induction false} EmptyRegionSplits(regions: seq<MemoryRegion>, f: nat)
    requires regions == [MemoryRegion(f * PAGE_SIZE, PAGE_SIZE, Usable), MemoryRegion(f * PAGE_SIZE + 1, 0, Reserved)]
    ensures Containing(regions, f) > 0 && Containing(Carved(regions), f) == 0
    ensures forall a: nat :: !Unusable(regions, a)
  {
    assert regions[0].typ == Usable && IsFrameOf(regions[0], f);
    ContainingIsMembership(regions, f);
    assert !IsUsable(regions[1].typ) && Cuts(regions[1], f);
    FramesAfterCarving(regions, f);
  }
}
