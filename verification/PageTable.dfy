/** The radix page table of `vm/page_table.rs`, for any number of levels.

    Tables are frames of 512 entries. The reference meaning of a table is the walk
    that the processor makes from the root (section 4.5 of Intel SDM Volume 3A).
    The proofs go through `tbl`, which names every table frame by the sequence of
    indices that leads to it. */
module PageTables {
  import opened Bits
  import opened Options

  const PAGE_SIZE: nat := 0x1000
  const ENTRY_COUNT: nat := 512

  type Paddr = nat
  type Vaddr = nat

  datatype Flags = Flags(present: bool, writable: bool, user: bool, huge: bool, noExecute: bool)

  datatype Pte = Pte(paddr: Paddr, flags: Flags)

  /** The all-zero entry. */
  const EMPTY: Pte := Pte(0, Flags(false, false, false, false, false))

  const TABLE_FLAGS: Flags := Flags(true, true, true, false, false)

  predicate IsUsed(e: Pte) { e != EMPTY }

  /** `va >> (12 + 9 * (level - 1)) & (ENTRY_COUNT - 1)`. */
  function PageIndex(va: Vaddr, level: nat): (i: nat)
    requires level >= 1
    ensures i < ENTRY_COUNT
  {
    IndexBelow(Shr(va, 12 + 9 * (level - 1)));
    And(Shr(va, 12 + 9 * (level - 1)), ENTRY_COUNT - 1)
  }

  lemma IndexBelow(x: nat)
    ensures And(x, ENTRY_COUNT - 1) == x % ENTRY_COUNT
  {
    assert Pow2(9) == ENTRY_COUNT;
    AndLowMask(x, 9, ENTRY_COUNT);
    ShrLow(x, 9, ENTRY_COUNT);
  }

  /** The last `n` base-512 digits of a page number, most significant first. */
  function Digits(page: nat, n: nat): (d: seq<nat>)
    ensures |d| == n
    ensures forall i | 0 <= i < n :: d[i] < ENTRY_COUNT
  {
    if n == 0 then [] else Digits(page / ENTRY_COUNT, n - 1) + [page % ENTRY_COUNT]
  }

  function Path(va: Vaddr, levels: nat): (d: seq<nat>)
    ensures |d| == levels
    ensures forall i | 0 <= i < levels :: d[i] < ENTRY_COUNT
  {
    Digits(va / PAGE_SIZE, levels)
  }

  lemma {:induction false} ShrAdd(x: nat, a: nat, b: nat)
    ensures Shr(x, a + b) == Shr(Shr(x, a), b)
  {
    if a > 0 { ShrAdd(x / 2, a - 1, b); }
  }

  lemma {:induction false} DigitAt(page: nat, n: nat, level: nat)
    requires 1 <= level <= n
    ensures Digits(page, n)[n - level] == Shr(page, 9 * (level - 1)) % ENTRY_COUNT
  {
    if level > 1 {
      assert Shr(page, 9) == page / ENTRY_COUNT by {
        assert Pow2(9) == ENTRY_COUNT;
        ShrLow(page, 9, ENTRY_COUNT);
      }
      ShrAdd(page, 9, 9 * (level - 2));
      assert 9 + 9 * (level - 2) == 9 * (level - 1);
      DigitAt(page / ENTRY_COUNT, n - 1, level - 1);
    }
  }

  /** The walk's index at each level is the digit of the page number at that place. */
  lemma PageIndexIsDigit(va: Vaddr, levels: nat, level: nat)
    requires 1 <= level <= levels
    ensures PageIndex(va, level) == Path(va, levels)[levels - level]
  {
    assert Shr(va, 12) == va / PAGE_SIZE by {
      Pow2Values();
      ShrLow(va, 12, PAGE_SIZE);
    }
    ShrAdd(va, 12, 9 * (level - 1));
    DigitAt(va / PAGE_SIZE, levels, level);
    IndexBelow(Shr(va, 12 + 9 * (level - 1)));
  }

  function Pow512(n: nat): nat { if n == 0 then 1 else 512 * Pow512(n - 1) }

  /** Within the address width two addresses have the same path exactly when they are on the same page. */
  lemma {:induction false} DigitsInjective(p: nat, q: nat, n: nat)
    requires p < Pow512(n) && q < Pow512(n)
    ensures Digits(p, n) == Digits(q, n) <==> p == q
  {
    if n > 0 {
      DigitsInjective(p / ENTRY_COUNT, q / ENTRY_COUNT, n - 1);
      var dp, dq := Digits(p, n), Digits(q, n);
      assert dp[..n - 1] == Digits(p / ENTRY_COUNT, n - 1) && dq[..n - 1] == Digits(q / ENTRY_COUNT, n - 1);
      assert dp[n - 1] == p % ENTRY_COUNT && dq[n - 1] == q % ENTRY_COUNT;
    }
  }

  // --- The reference: the processor's walk ---

  /** What the processor makes of an entry of the last level. */
  function Shown(e: Pte): Option<Pte> { if e.flags.present then Some(e) else None }

  type Memory = map<Paddr, seq<Pte>>

  function Walk(mem: Memory, frame: Paddr, level: nat, va: Vaddr): Option<Pte>
    requires level >= 1
    decreases level
  {
    if frame !in mem || |mem[frame]| != ENTRY_COUNT then None
    else
      var e := mem[frame][PageIndex(va, level)];
      if !e.flags.present then None
      else if level == 1 || e.flags.huge then Some(e)
      else Walk(mem, e.paddr, level - 1, va)
  }

  datatype Rights = Rights(write: bool, user: bool, execute: bool)

  function Grants(f: Flags): Rights { Rights(f.writable, f.user, !f.noExecute) }

  function EntryGrants(e: Option<Pte>): Option<Rights> { if e.Some? then Some(Grants(e.value.flags)) else None }

  /** What the processor lets user code do at `va`: only what every entry on the way allows (section 4.6 of Intel SDM
      Volume 3A). */
  function Allowed(mem: Memory, frame: Paddr, level: nat, va: Vaddr): Option<Rights>
    requires level >= 1
    decreases level
  {
    if frame !in mem || |mem[frame]| != ENTRY_COUNT then None
    else
      var e := mem[frame][PageIndex(va, level)];
      var here := Grants(e.flags);
      if !e.flags.present then None
      else if level == 1 || e.flags.huge then Some(here)
      else match Allowed(mem, e.paddr, level - 1, va)
        case None => None
        case Some(r) => Some(Rights(here.write && r.write, here.user && r.user, here.execute && r.execute))
  }

  // --- The shape of the tables ---

  type Tables = map<seq<nat>, Paddr>

  /** `shared` are the root slots that `add_root_mapping` has filled with kernel entries. */
  datatype Tree = Tree(levels: nat, root: Paddr, mem: Memory, tbl: Tables, shared: set<nat>)

  ghost predicate Wf(t: Tree) {
    && t.levels >= 1
    && [] in t.tbl && t.tbl[[]] == t.root
    && (forall p {:trigger TableOk(t, p)} | p in t.tbl :: TableOk(t, p))
    && (forall p, q {:trigger Apart(t, p, q)} | p in t.tbl && q in t.tbl :: Apart(t, p, q))
    && (forall p, i {:trigger LinkOk(t, p, i)} | p in t.tbl && Inner(t, p, i) :: LinkOk(t, p, i))
  }

  /** The entries in the shared root slots. */
  function SharedEntries(t: Tree): map<nat, Pte> {
    map i | i in t.shared && t.root in t.mem && i < |t.mem[t.root]| :: t.mem[t.root][i]
  }

  /** Entry `i` of the table at `p` leads to another table, and is not a kernel slot. */
  predicate Inner(t: Tree, p: seq<nat>, i: nat) {
    |p| + 1 < t.levels && i < ENTRY_COUNT && (if p == [] then i !in t.shared else !IsShared(t, p))
  }

  ghost predicate Apart(t: Tree, p: seq<nat>, q: seq<nat>)
    requires p in t.tbl && q in t.tbl
  {
    t.tbl[p] == t.tbl[q] ==> p == q
  }

  predicate IsShared(t: Tree, path: seq<nat>) { path != [] && path[0] in t.shared }

  ghost predicate TableOk(t: Tree, p: seq<nat>)
    requires p in t.tbl
  {
    && |p| < t.levels
    && !IsShared(t, p)
    && (p != [] ==> p[..|p| - 1] in t.tbl)
    && t.tbl[p] in t.mem && |t.mem[t.tbl[p]]| == ENTRY_COUNT
  }

  /** An entry of an inner table is present exactly when the next table exists, and leads to it. */
  ghost predicate LinkOk(t: Tree, p: seq<nat>, i: nat)
    requires p in t.tbl
  {
    && t.tbl[p] in t.mem && i < |t.mem[t.tbl[p]]|
    && var e := t.mem[t.tbl[p]][i];
       && (e.flags.present <==> p + [i] in t.tbl)
       && (e.flags.present ==> e.flags == TABLE_FLAGS && e.paddr == t.tbl[p + [i]])
  }

  /** A full path outside the shared slots. */
  predicate UserPath(t: Tree, path: seq<nat>) {
    |path| == t.levels && !IsShared(t, path) && forall i | 0 <= i < |path| :: path[i] < ENTRY_COUNT
  }

  /** The last-level entry of a path, if its table exists. */
  ghost function Slot(t: Tree, path: seq<nat>): Option<Pte>
    requires path != []
  {
    var p, i := path[..|path| - 1], path[|path| - 1];
    if p in t.tbl && t.tbl[p] in t.mem && i < |t.mem[t.tbl[p]]| then Some(t.mem[t.tbl[p]][i]) else None
  }

  /** What the tables say about one path. */
  ghost function Leaf(t: Tree, path: seq<nat>): Option<Pte>
    requires path != []
  {
    var p, i := path[..|path| - 1], path[|path| - 1];
    if p in t.tbl && t.tbl[p] in t.mem && i < |t.mem[t.tbl[p]]| && t.mem[t.tbl[p]][i].flags.present
    then Some(t.mem[t.tbl[p]][i]) else None
  }

  /** One step down a path. */
  lemma StepDown(t: Tree, path: seq<nat>, n: nat)
    requires Wf(t) && UserPath(t, path) && n + 1 < t.levels && path[..n] in t.tbl
    ensures LinkOk(t, path[..n], path[n]) && path[..n] + [path[n]] == path[..n + 1]
  {
    var p := path[..n];
    assert n > 0 ==> p[0] == path[0];
    assert Inner(t, p, path[n]) && LinkOk(t, p, path[n]);
    assert p + [path[n]] == path[..n + 1];
  }

  /** Every table above a table exists. */
  lemma {:induction false} PrefixExists(t: Tree, p: seq<nat>, n: nat)
    requires Wf(t) && n <= |p|
    ensures p in t.tbl ==> p[..n] in t.tbl
    decreases |p|
  {
    if p in t.tbl && n < |p| {
      assert TableOk(t, p);
      var q := p[..|p| - 1];
      PrefixExists(t, q, n);
      assert q[..n] == p[..n];
    } else {
      assert n == |p| ==> p[..n] == p;
    }
  }

  /** The processor's walk finds what the tables say about the path. */
  lemma {:induction false} WalkIsLeaf(t: Tree, va: Vaddr, level: nat)
    requires Wf(t) && 1 <= level <= t.levels && UserPath(t, Path(va, t.levels))
    requires Path(va, t.levels)[..t.levels - level] in t.tbl
    ensures Walk(t.mem, t.tbl[Path(va, t.levels)[..t.levels - level]], level, va) == Leaf(t, Path(va, t.levels))
    decreases level
  {
    var path, n := Path(va, t.levels), t.levels - level;
    PageIndexIsDigit(va, t.levels, level);
    assert TableOk(t, path[..n]);
    if level > 1 {
      StepDown(t, path, n);
      if path[..n + 1] in t.tbl {
        WalkIsLeaf(t, va, level - 1);
      } else {
        PrefixExists(t, path[..t.levels - 1], n + 1);
        assert path[..t.levels - 1][..n + 1] == path[..n + 1];
      }
    }
  }

  lemma TranslationIsLeaf(t: Tree, va: Vaddr)
    requires Wf(t) && UserPath(t, Path(va, t.levels))
    ensures Walk(t.mem, t.root, t.levels, va) == Leaf(t, Path(va, t.levels))
  {
    assert Path(va, t.levels)[..0] == [];
    WalkIsLeaf(t, va, t.levels);
  }

  /** The tables above the last level take no right away, so the last entry alone decides what is allowed. */
  lemma {:induction false} AllowedIsLeaf(t: Tree, va: Vaddr, level: nat)
    requires Wf(t) && 1 <= level <= t.levels && UserPath(t, Path(va, t.levels))
    requires Path(va, t.levels)[..t.levels - level] in t.tbl
    ensures var e := Leaf(t, Path(va, t.levels));
            Allowed(t.mem, t.tbl[Path(va, t.levels)[..t.levels - level]], level, va) == EntryGrants(e)
    decreases level
  {
    var path, n := Path(va, t.levels), t.levels - level;
    PageIndexIsDigit(va, t.levels, level);
    assert TableOk(t, path[..n]);
    if level > 1 {
      StepDown(t, path, n);
      if path[..n + 1] in t.tbl {
        AllowedIsLeaf(t, va, level - 1);
      } else {
        PrefixExists(t, path[..t.levels - 1], n + 1);
        assert path[..t.levels - 1][..n + 1] == path[..n + 1];
      }
    }
  }

  // --- How many tables a path still needs ---

  /** The depths at which a path has no table. */
  ghost function Lacking(tbl: Tables, path: seq<nat>): set<nat> {
    set n: nat | n < |path| && path[..n] !in tbl
  }

  lemma OneLessLacking(tbl: Tables, path: seq<nat>, k: nat, f: Paddr)
    requires k < |path| && path[..k] !in tbl
    ensures |Lacking(tbl[path[..k] := f], path)| == |Lacking(tbl, path)| - 1
  {
    forall n: nat | n < |path| && n != k ensures path[..n] != path[..k] { assert |path[..n]| == n; }
    assert Lacking(tbl[path[..k] := f], path) == Lacking(tbl, path) - {k};
  }

  lemma OneFrameLess(free: set<Paddr>, f: Paddr)
    requires f in free
    ensures |free - {f}| == |free| - 1
  {
  }

  lemma LackingNone(t: Tree, path: seq<nat>)
    requires Wf(t) && |path| == t.levels
    ensures path[..t.levels - 1] in t.tbl <==> |Lacking(t.tbl, path)| == 0
  {
    var last := t.levels - 1;
    if path[..last] in t.tbl {
      forall n: nat | n < |path| ensures path[..n] in t.tbl {
        PrefixExists(t, path[..last], n);
        assert path[..last][..n] == path[..n];
      }
      assert Lacking(t.tbl, path) == {};
    } else {
      assert last in Lacking(t.tbl, path);
    }
  }

  // --- The two ways the code changes a table ---

  function Zeroed(): (z: seq<Pte>)
    ensures |z| == ENTRY_COUNT && forall i | 0 <= i < ENTRY_COUNT :: z[i] == EMPTY
  {
    seq(ENTRY_COUNT, _ => EMPTY)
  }

  function SetEntry(mem: Memory, frame: Paddr, i: nat, e: Pte): Memory
    requires frame in mem && i < |mem[frame]|
  {
    mem[frame := mem[frame][i := e]]
  }

  /** Linking the zeroed frame `f` under entry `i` of the table at `p`. */
  ghost function Linked(t: Tree, p: seq<nat>, i: nat, f: Paddr): Tree
    requires p in t.tbl && t.tbl[p] in t.mem && i < |t.mem[t.tbl[p]]|
  {
    t.(mem := SetEntry(t.mem, t.tbl[p], i, Pte(f, TABLE_FLAGS))[f := Zeroed()], tbl := t.tbl[p + [i] := f])
  }

  ghost predicate CanLink(t: Tree, p: seq<nat>, i: nat, f: Paddr) {
    && Wf(t) && p in t.tbl && Inner(t, p, i)
    && t.tbl[p] in t.mem && |t.mem[t.tbl[p]]| == ENTRY_COUNT
    && p + [i] !in t.tbl && f !in t.mem
  }

  lemma LinkKeepsWf(t: Tree, p: seq<nat>, i: nat, f: Paddr)
    requires CanLink(t, p, i, f)
    ensures Wf(Linked(t, p, i, f))
  {
    var t' := Linked(t, p, i, f);
    forall q | q in t.tbl ensures t.tbl[q] in t.mem && t.tbl[q] != f && |t.mem[t.tbl[q]]| == ENTRY_COUNT {
      assert TableOk(t, q);
    }
    forall q | q in t'.tbl ensures TableOk(t', q) {
      if q == p + [i] {
        assert q[..|q| - 1] == p;
      } else {
        assert TableOk(t, q);
      }
    }
    forall q, q2 | q in t'.tbl && q2 in t'.tbl ensures Apart(t', q, q2) {
      assert q in t.tbl && q2 in t.tbl ==> Apart(t, q, q2);
    }
    forall q, k: nat | q in t'.tbl && Inner(t', q, k)
      ensures LinkOk(t', q, k)
    {
      LinkStill(t, p, i, f, q, k);
    }
  }

  lemma LinkStill(t: Tree, p: seq<nat>, i: nat, f: Paddr, q: seq<nat>, k: nat)
    requires CanLink(t, p, i, f) && q in Linked(t, p, i, f).tbl
    requires Inner(t, q, k)
    ensures LinkOk(Linked(t, p, i, f), q, k)
  {
    assert (p + [i])[..|p|] == p && (q + [k])[..|q|] == q && (q + [k])[|q|] == k && (p + [i])[|p|] == i;
    if q == p + [i] {
      PrefixExists(t, q + [k], |q|);
    } else {
      assert LinkOk(t, q, k) && TableOk(t, q) && Apart(t, q, p);
    }
  }

  lemma LinkKeepsRoot(t: Tree, p: seq<nat>, i: nat, f: Paddr)
    requires CanLink(t, p, i, f)
    ensures SharedEntries(Linked(t, p, i, f)) == SharedEntries(t)
  {
    assert TableOk(t, []) && Apart(t, p, []);
  }

  /** Creating tables never changes a translation. */
  lemma LinkKeepsLeaf(t: Tree, p: seq<nat>, i: nat, f: Paddr, path: seq<nat>)
    requires CanLink(t, p, i, f) && |path| == t.levels
    ensures Leaf(Linked(t, p, i, f), path) == Leaf(t, path)
  {
    var q := path[..t.levels - 1];
    if q in t.tbl {
      assert TableOk(t, q) && Apart(t, q, p) && q != p;
      assert q != p + [i];
    }
  }

  /** Writing the last-level entry of `path`. */
  ghost function Written(t: Tree, path: seq<nat>, e: Pte): Tree
    requires HasLeafSlot(t, path)
  {
    t.(mem := SetEntry(t.mem, t.tbl[path[..t.levels - 1]], path[t.levels - 1], e))
  }

  ghost predicate HasLeafSlot(t: Tree, path: seq<nat>) {
    && t.levels >= 1 && UserPath(t, path) && path[..t.levels - 1] in t.tbl
    && var f := t.tbl[path[..t.levels - 1]]; f in t.mem && |t.mem[f]| == ENTRY_COUNT
  }

  lemma WriteKeepsWf(t: Tree, path: seq<nat>, e: Pte)
    requires Wf(t) && HasLeafSlot(t, path)
    ensures Wf(Written(t, path, e))
  {
    var p := path[..t.levels - 1];
    var t' := Written(t, path, e);
    forall q | q in t'.tbl ensures TableOk(t', q) { assert TableOk(t, q); }
    forall q, q2 | q in t'.tbl && q2 in t'.tbl ensures Apart(t', q, q2) { assert Apart(t, q, q2); }
    forall q, k: nat | q in t'.tbl && Inner(t', q, k)
      ensures LinkOk(t', q, k)
    {
      assert Inner(t, q, k) && LinkOk(t, q, k) && q != p && Apart(t, q, p);
    }
  }

  /** Writing a last-level entry changes the translation of exactly its own path. */
  lemma WriteChangesOneLeaf(t: Tree, path: seq<nat>, e: Pte, other: seq<nat>)
    requires Wf(t) && HasLeafSlot(t, path) && |other| == t.levels
    ensures Leaf(Written(t, path, e), other)
         == if other == path then Shown(e) else Leaf(t, other)
    ensures Slot(Written(t, path, e), other)
         == if other == path then Some(e) else Slot(t, other)
  {
    var p, q := path[..t.levels - 1], other[..t.levels - 1];
    if q == p {
      assert path == p + [path[t.levels - 1]] && other == q + [other[t.levels - 1]];
    } else if q in t.tbl {
      assert Apart(t, q, p);
    }
  }

  lemma WriteTranslates(t: Tree, va: Vaddr, e: Pte, v: Vaddr)
    requires Wf(t) && HasLeafSlot(t, Path(va, t.levels)) && UserPath(t, Path(v, t.levels))
    ensures Walk(Written(t, Path(va, t.levels), e).mem, t.root, t.levels, v)
         == if Path(v, t.levels) == Path(va, t.levels) then Shown(e) else Walk(t.mem, t.root, t.levels, v)
  {
    WriteKeepsWf(t, Path(va, t.levels), e);
    TranslationIsLeaf(t, v);
    TranslationIsLeaf(Written(t, Path(va, t.levels), e), v);
    WriteChangesOneLeaf(t, Path(va, t.levels), e, Path(v, t.levels));
  }

  lemma WriteKeepsRoot(t: Tree, path: seq<nat>, e: Pte)
    requires Wf(t) && HasLeafSlot(t, path)
    ensures SharedEntries(Written(t, path, e)) == SharedEntries(t)
  {
    assert TableOk(t, []) && Apart(t, path[..t.levels - 1], []);
  }

  // --- The page table object ---

  class FrameAllocator {
    var free: set<Paddr>

    constructor (frames: set<Paddr>)
      ensures free == frames
    {
      free := frames;
    }

    method AllocSingle() returns (r: Option<Paddr>)
      modifies this
      ensures r.None? ==> old(free) == {} && free == {}
      ensures r.Some? ==> r.value in old(free) && free == old(free) - {r.value}
    {
      if free == {} { return None; }
      var f :| f in free;
      free := free - {f};
      return Some(f);
    }
  }

  datatype WalkResult = Found(frame: Paddr, index: nat) | Missing | OutOfFrames

  /** `Panics` stands for an `unwrap` that fails. */
  datatype Outcome = Ok | InvalidModification | InvalidVaddr | Panics

  /** `tables` lists every table of the tree once. */
  ghost predicate Owned(mem: Memory, tables: seq<Paddr>, tbl: Tables) {
    && (forall f {:trigger OwnedAt(mem, tables, tbl, f)} :: OwnedAt(mem, tables, tbl, f))
    && (forall i, j {:trigger TablesDiffer(tables, i, j)} | 0 <= i < j < |tables| :: TablesDiffer(tables, i, j))
  }

  ghost predicate OwnedAt(mem: Memory, tables: seq<Paddr>, tbl: Tables, f: Paddr) {
    (f in tables <==> f in mem) && (f in tables <==> exists p :: p in tbl && tbl[p] == f)
  }

  predicate TablesDiffer(tables: seq<Paddr>, i: nat, j: nat)
    requires i < |tables| && j < |tables|
  {
    tables[i] != tables[j]
  }

  lemma StillOwned(mem: Memory, tables: seq<Paddr>, tbl: Tables, mem': Memory)
    requires Owned(mem, tables, tbl) && mem'.Keys == mem.Keys
    ensures Owned(mem', tables, tbl)
  {
    forall f ensures OwnedAt(mem', tables, tbl, f) { assert OwnedAt(mem, tables, tbl, f); }
  }

  lemma LinkKeepsOwned(mem: Memory, tables: seq<Paddr>, tbl: Tables, q: seq<nat>, f: Paddr, mem': Memory)
    requires Owned(mem, tables, tbl) && q !in tbl && f !in mem && mem'.Keys == mem.Keys + {f}
    ensures Owned(mem', tables + [f], tbl[q := f])
  {
    var tables', tbl' := tables + [f], tbl[q := f];
    forall g ensures OwnedAt(mem', tables', tbl', g) {
      assert OwnedAt(mem, tables, tbl, g);
      if g in tables {
        var p :| p in tbl && tbl[p] == g;
        assert p in tbl' && tbl'[p] == g;
      } else if g == f {
        assert q in tbl' && tbl'[q] == g;
      }
    }
    forall i, j | 0 <= i < j < |tables'| ensures TablesDiffer(tables', i, j) {
      if j < |tables| {
        assert TablesDiffer(tables, i, j);
      } else {
        assert OwnedAt(mem, tables, tbl, f) && tables[i] in tables;
      }
    }
  }

  class PageTable {
    const levels: nat
    const root: Paddr
    var tables: seq<Paddr>
    var mem: Memory
    ghost var tbl: Tables
    ghost var shared: set<nat>
    ghost var kernel: map<nat, Pte>

    ghost function Shape(): Tree
      reads this
    {
      Tree(levels, root, mem, tbl, shared)
    }

    /** The tables are a tree of distinct frames, all of them owned by this page table, and the root holds the kernel's
        entries. */
    ghost predicate Valid()
      reads this
    {
      Wf(Shape()) && SharedEntries(Shape()) == kernel && Owned(mem, tables, tbl)
    }

    ghost predicate Disjoint(alloc: FrameAllocator)
      reads this, alloc
    {
      forall f | f in mem :: f !in alloc.free
    }

    /** One frame has gone for each table of the path that has been made since. */
    ghost predicate Spent(alloc: FrameAllocator, path: seq<nat>, before: Tables, free: set<Paddr>)
      requires |path| == levels
      reads this, alloc
    {
      |alloc.free| + |Lacking(before, path)| == |free| + |Lacking(tbl, path)|
    }

    /** A table for `va` is missing, and there is no frame left to make one of. */
    ghost predicate Starved(va: Vaddr, alloc: FrameAllocator)
      reads this, alloc
    {
      levels >= 1 && alloc.free == {} && Path(va, levels)[..levels - 1] !in tbl
    }

    /** `va` does not go through a root slot shared with the kernel. */
    ghost predicate UserVa(va: Vaddr)
      reads this`shared
    {
      levels >= 1 && Path(va, levels)[0] !in shared
    }

    ghost function Translation(va: Vaddr): Option<Pte>
      requires levels >= 1
      reads this
    {
      Walk(mem, root, levels, va)
    }

    ghost function Allows(va: Vaddr): Option<Rights>
      requires levels >= 1
      reads this
    {
      Allowed(mem, root, levels, va)
    }

    /** What user code may do with a page is what its own entry says. */
    lemma AllowsByEntry(va: Vaddr)
      requires Valid() && UserVa(va)
      ensures Allows(va) == EntryGrants(Translation(va))
    {
      TranslationIsLeaf(Shape(), va);
      assert Path(va, levels)[..0] == [];
      AllowedIsLeaf(Shape(), va, levels);
    }

    /** The last-level entry for `va`, if there is a table to hold it. */
    ghost function Entry(va: Vaddr): Option<Pte>
      requires levels >= 1
      reads this
    {
      Slot(Shape(), Path(va, levels))
    }

    constructor (levels: nat, rootFrame: Paddr)
      requires levels >= 1
      ensures Valid() && this.levels == levels && root == rootFrame && tables == [rootFrame]
      ensures shared == {} && kernel == map[]
      ensures mem.Keys == {rootFrame} && (forall k | 0 <= k < ENTRY_COUNT :: RootSlotFree(k))
      ensures forall va :: Translation(va) == None
    {
      this.levels, root, tables := levels, rootFrame, [rootFrame];
      mem, tbl, shared, kernel := map[rootFrame := Zeroed()], map[[] := rootFrame], {}, map[];
      new;
      forall i: nat | i < ENTRY_COUNT && levels > 1 ensures LinkOk(Shape(), [], i) { assert [] + [i] != []; }
      assert tbl[[]] == rootFrame;
    }

    ghost predicate RootSlotFree(index: nat)
      reads this
    {
      index in shared || (root in mem && index < |mem[root]| && !mem[root][index].flags.present)
    }

    /** `add_root_mapping`, which is only used on slots that hold no table of this page table. */
    method AddRootMapping(index: nat, pte: Pte)
      requires Valid() && index < ENTRY_COUNT && levels > 1 && RootSlotFree(index)
      modifies this`mem, this`shared, this`kernel
      ensures Valid() && shared == old(shared) + {index} && kernel == old(kernel)[index := pte]
      ensures mem.Keys == old(mem.Keys) && root in mem && index < |old(mem[root])|
      ensures mem[root] == old(mem[root])[index := pte]
      ensures forall f | f in mem && f != root :: mem[f] == old(mem[f])
      ensures forall k | 0 <= k < ENTRY_COUNT && old(RootSlotFree(k)) :: RootSlotFree(k)
      ensures forall va | UserVa(va) :: Translation(va) == old(Translation(va))
    {
      ghost var t := Shape();
      assert TableOk(t, []);
      mem := SetEntry(mem, root, index, pte);
      shared, kernel := shared + {index}, kernel[index := pte];
      StillOwned(t.mem, tables, tbl, mem);
      RootMapping(t, index, pte);
      forall va | UserVa(va) ensures Translation(va) == old(Translation(va)) {
        TranslationIsLeaf(t, va);
        TranslationIsLeaf(Shape(), va);
        RootMappingKeepsLeaf(t, index, pte, Path(va, levels));
      }
    }

    /** The walk for `va` is at the entry of `r` in the table at depth `n`, or has ended above the last level: for want
        of a table, or of a frame for one that it was to create. */
    ghost predicate At(va: Vaddr, n: nat, r: WalkResult, create: bool, alloc: FrameAllocator)
      requires n < levels
      reads this, alloc
    {
      match r
      case Found(frame, index) =>
        && Path(va, levels)[..n] in tbl && frame == tbl[Path(va, levels)[..n]] && index == Path(va, levels)[n]
      case Missing => !create && Path(va, levels)[..levels - 1] !in tbl
      case OutOfFrames => create && alloc.free == {} && Path(va, levels)[..levels - 1] !in tbl
    }

    method PageWalk(va: Vaddr, create: bool, alloc: FrameAllocator) returns (r: WalkResult)
      requires Valid() && Disjoint(alloc) && UserVa(va)
      modifies this`mem, this`tables, this`tbl, alloc
      ensures Valid() && Disjoint(alloc) && alloc.free <= old(alloc.free)
      ensures mem.Keys <= old(mem.Keys) + old(alloc.free)
      ensures forall v | UserVa(v) :: Translation(v) == old(Translation(v))
      ensures !create ==> Shape() == old(Shape()) && tables == old(tables) && alloc.free == old(alloc.free)
      ensures At(va, levels - 1, r, create, alloc)
      ensures Spent(alloc, Path(va, levels), old(tbl), old(alloc.free))
    {
      var count, huge := levels, false;
      PageIndexIsDigit(va, levels, levels);
      r := Found(root, PageIndex(va, levels));
      assert Path(va, levels)[..0] == [];
      ghost var n := 0;
      while count > 1 && r.Found? && !huge
        invariant 1 <= count <= levels && !huge && n == levels - count
        invariant Valid() && Disjoint(alloc) && alloc.free <= old(alloc.free)
        invariant mem.Keys <= old(mem.Keys) + old(alloc.free)
        invariant forall v | UserVa(v) :: Translation(v) == old(Translation(v))
        invariant !create ==> Shape() == old(Shape()) && tables == old(tables) && alloc.free == old(alloc.free)
        invariant Spent(alloc, Path(va, levels), old(tbl), old(alloc.free))
        invariant At(va, n, r, create, alloc)
        decreases count
      {
        r, huge := Descend(va, count, n, r.frame, r.index, create, alloc);
        count, n := count - 1, n + 1;
      }
    }

    /** One round of the loop of `PageWalk`, from the entry at one level to the one below. */
    method Descend(va: Vaddr, count: nat, ghost n: nat, frame: Paddr, index: nat, create: bool, alloc: FrameAllocator)
      returns (r: WalkResult, huge: bool)
      requires Valid() && Disjoint(alloc) && UserVa(va) && 1 < count <= levels && n == levels - count
      requires At(va, n, Found(frame, index), create, alloc)
      modifies this`mem, this`tables, this`tbl, alloc
      ensures Valid() && Disjoint(alloc) && alloc.free <= old(alloc.free)
      ensures mem.Keys <= old(mem.Keys) + old(alloc.free)
      ensures forall v | UserVa(v) :: Translation(v) == old(Translation(v))
      ensures !create ==> Shape() == old(Shape()) && tables == old(tables) && alloc.free == old(alloc.free)
      ensures !huge && At(va, n + 1, r, create, alloc)
      ensures Spent(alloc, Path(va, levels), old(tbl), old(alloc.free))
    {
      var current: Pte;
      r, current := Enter(va, n, frame, index, create, alloc);
      huge := current.flags.huge;
      if r.Found? && !huge {
        PageIndexIsDigit(va, levels, count - 1);
        r := Found(current.paddr, PageIndex(va, count - 1));
      }
    }

    /** `PageWalk` together with the entry that it has found. It takes one frame for each missing table, and fails if
        and only if there are fewer. */
    method Seek(va: Vaddr, create: bool, alloc: FrameAllocator) returns (w: WalkResult, e: Pte)
      requires Valid() && Disjoint(alloc) && UserVa(va)
      modifies this`mem, this`tables, this`tbl, alloc
      ensures Valid() && Disjoint(alloc) && alloc.free <= old(alloc.free)
      ensures mem.Keys <= old(mem.Keys) + old(alloc.free)
      ensures forall v | UserVa(v) :: Translation(v) == old(Translation(v))
      ensures !create ==> Shape() == old(Shape()) && tables == old(tables) && alloc.free == old(alloc.free)
      ensures w.Found? ==>
                && HasLeafSlot(Shape(), Path(va, levels))
                && w.frame == tbl[Path(va, levels)[..levels - 1]] && w.index == Path(va, levels)[levels - 1]
                && Entry(va) == Some(e) && Translation(va) == Shown(e)
      ensures w.Missing? <==> !create && old(Entry(va)) == None
      ensures w.Found? && !create ==> old(Entry(va)) == Some(e)
      ensures !w.Found? ==> Translation(va) == None
      ensures w.OutOfFrames? ==> Starved(va, alloc)
      ensures w.OutOfFrames? <==> create && |old(alloc.free)| < |Lacking(old(tbl), Path(va, levels))|
      ensures w.Found? && create ==> |alloc.free| == |old(alloc.free)| - |Lacking(old(tbl), Path(va, levels))|
    {
      w := PageWalk(va, create, alloc);
      assert w.Found? ==> TableOk(Shape(), Path(va, levels)[..levels - 1]);
      LackingNone(Shape(), Path(va, levels));
      TranslationIsLeaf(Shape(), va);
      e := if w.Found? then mem[w.frame][w.index] else EMPTY;
    }

    /** Makes sure that there is a next table on a path, if `create` says so; `current` is the entry that leads on. */
    method Enter(ghost va: Vaddr, ghost n: nat, frame: Paddr, index: nat, create: bool, alloc: FrameAllocator)
      returns (r: WalkResult, current: Pte)
      requires Valid() && Disjoint(alloc) && UserVa(va) && n + 1 < levels
      requires Path(va, levels)[..n] in tbl && frame == tbl[Path(va, levels)[..n]] && index == Path(va, levels)[n]
      modifies this`mem, this`tables, this`tbl, alloc
      ensures Valid() && Disjoint(alloc) && alloc.free <= old(alloc.free)
      ensures mem.Keys <= old(mem.Keys) + old(alloc.free)
      ensures forall v | UserVa(v) :: Translation(v) == old(Translation(v))
      ensures !create ==> Shape() == old(Shape()) && tables == old(tables) && alloc.free == old(alloc.free)
      ensures r.Found? ==>
                && Path(va, levels)[..n + 1] in tbl
                && current == Pte(tbl[Path(va, levels)[..n + 1]], TABLE_FLAGS)
      ensures !current.flags.huge
      ensures r.Missing? ==> !create && Path(va, levels)[..levels - 1] !in tbl
      ensures r.OutOfFrames? ==> create && alloc.free == {} && Path(va, levels)[..levels - 1] !in tbl
      ensures Spent(alloc, Path(va, levels), old(tbl), old(alloc.free))
    {
      ghost var path := Path(va, levels);
      StepDown(Shape(), path, n);
      if !mem[frame][index].flags.present {
        PrefixExists(Shape(), path[..levels - 1], n + 1);
        assert path[..levels - 1][..n + 1] == path[..n + 1];
        if !create { return Missing, EMPTY; }
        var ok := CreateTable(path, n, frame, index, alloc);
        if !ok { return OutOfFrames, EMPTY; }
        StepDown(Shape(), path, n);
      }
      return Found(frame, index), mem[frame][index];
    }

    /** Allocates the next table on a path, whose entry is still absent. */
    method CreateTable(ghost path: seq<nat>, ghost n: nat, frame: Paddr, index: nat, alloc: FrameAllocator)
      returns (ok: bool)
      requires Valid() && Disjoint(alloc) && UserPath(Shape(), path) && n + 1 < levels
      requires path[..n] in tbl && frame == tbl[path[..n]] && index == path[n]
      requires frame in mem && index < |mem[frame]| && !mem[frame][index].flags.present
      modifies this`mem, this`tables, this`tbl, alloc
      ensures Valid() && Disjoint(alloc) && alloc.free <= old(alloc.free)
      ensures mem.Keys <= old(mem.Keys) + old(alloc.free)
      ensures forall v | UserVa(v) :: Translation(v) == old(Translation(v))
      ensures path[..n] in tbl && frame == tbl[path[..n]]
      ensures ok ==> path[..n + 1] in tbl
      ensures !ok ==> alloc.free == {} && tbl == old(tbl)
      ensures Spent(alloc, path, old(tbl), old(alloc.free))
    {
      StepDown(Shape(), path, n);
      assert TableOk(Shape(), path[..n]);
      assert n > 0 ==> path[..n][0] == path[0];
      var f := alloc.AllocSingle();
      if f.None? { return false; }
      Link(path[..n], frame, index, f.value, alloc);
      OneFrameLess(old(alloc.free), f.value);
      OneLessLacking(old(tbl), path, n + 1, f.value);
      return true;
    }

    /** Hangs the zeroed frame `f` below one entry. */
    method Link(ghost p: seq<nat>, frame: Paddr, index: nat, f: Paddr, ghost alloc: FrameAllocator)
      requires Valid() && p in tbl && tbl[p] == frame && CanLink(Shape(), p, index, f)
      requires forall g | g in mem :: g !in alloc.free
      requires f !in alloc.free
      modifies this`mem, this`tables, this`tbl
      ensures Valid() && Disjoint(alloc) && Shape() == Linked(old(Shape()), p, index, f)
      ensures tables == old(tables) + [f] && mem.Keys == old(mem.Keys) + {f}
      ensures forall v | UserVa(v) :: Translation(v) == old(Translation(v))
    {
      ghost var t := Shape();
      LinkKeepsRoot(t, p, index, f);
      mem := SetEntry(mem, frame, index, Pte(f, TABLE_FLAGS))[f := Zeroed()];
      tables := tables + [f];
      tbl := tbl[p + [index] := f];
      LinkKeepsWf(t, p, index, f);
      LinkKeepsOwned(t.mem, old(tables), t.tbl, p + [index], f, mem);
      forall v | UserVa(v) ensures Translation(v) == old(Translation(v)) {
        TranslationIsLeaf(t, v);
        TranslationIsLeaf(Shape(), v);
        LinkKeepsLeaf(t, p, index, f, Path(v, levels));
      }
    }

    /** Writes the last-level entry that `PageWalk` has found. */
    method WriteLeaf(va: Vaddr, frame: Paddr, index: nat, e: Pte)
      requires Valid() && UserVa(va) && HasLeafSlot(Shape(), Path(va, levels))
      requires frame == tbl[Path(va, levels)[..levels - 1]] && index == Path(va, levels)[levels - 1]
      modifies this`mem
      ensures Valid() && mem.Keys == old(mem.Keys)
      ensures Entry(va) == Some(e)
      ensures forall v | UserVa(v) ::
                Translation(v) == if Path(v, levels) == Path(va, levels)
                                  then Shown(e) else old(Translation(v))
    {
      ghost var t, path := Shape(), Path(va, levels);
      WriteKeepsWf(t, path, e);
      WriteKeepsRoot(t, path, e);
      WriteChangesOneLeaf(t, path, e, path);
      forall v | UserVa(v)
        ensures Walk(Written(t, path, e).mem, root, levels, v)
             == if Path(v, levels) == path then Shown(e) else Translation(v)
      {
        WriteTranslates(t, va, e, v);
      }
      mem := SetEntry(mem, frame, index, e);
      StillOwned(t.mem, tables, tbl, mem);
    }

    /** Maps one page: refused if and only if the page is translated already, and impossible if and only if there are
        fewer free frames than tables missing. */
    method DoMap(va: Vaddr, paddr: Paddr, flags: Flags, alloc: FrameAllocator) returns (r: Outcome)
      requires Valid() && Disjoint(alloc) && UserVa(va)
      modifies this`mem, this`tables, this`tbl, alloc
      ensures Valid() && Disjoint(alloc) && alloc.free <= old(alloc.free) && mem.Keys <= old(mem.Keys) + old(alloc.free)
      ensures SharedEntries(Shape()) == old(SharedEntries(Shape()))
      ensures r in {Ok, InvalidModification, Panics} && (r == Panics ==> Starved(va, alloc))
      ensures r == Panics <==> |old(alloc.free)| < old(|Lacking(tbl, Path(va, levels))|)
      ensures r == InvalidModification <==> old(Translation(va)).Some?
      ensures r == Ok ==> Entry(va) == Some(Pte(paddr, flags))
      ensures r == Ok ==> forall v | UserVa(v) ::
                Translation(v) == if Path(v, levels) == Path(va, levels)
                                  then Shown(Pte(paddr, flags))
                                  else old(Translation(v))
      ensures r != Ok ==> forall v | UserVa(v) :: Translation(v) == old(Translation(v))
    {
      var w, e := Seek(va, true, alloc);
      if w.OutOfFrames? { return Panics; }
      if IsUsed(e) && e.flags.present { return InvalidModification; }
      WriteLeaf(va, w.frame, w.index, Pte(paddr, flags));
      return Ok;
    }

    /** Unmaps one page: afterwards exactly that page has no translation. */
    method DoUnmap(va: Vaddr, alloc: FrameAllocator) returns (r: Outcome)
      requires Valid() && Disjoint(alloc) && UserVa(va)
      modifies this`mem, this`tables, this`tbl, alloc
      ensures Valid() && Disjoint(alloc) && alloc.free == old(alloc.free) && tables == old(tables)
      ensures mem.Keys == old(mem.Keys) && SharedEntries(Shape()) == old(SharedEntries(Shape()))
      ensures r in {Ok, InvalidModification, Panics}
      ensures r == Panics <==> old(Entry(va)) == None
      ensures r == InvalidModification <==> old(Entry(va)) == Some(EMPTY)
      ensures r == Ok ==> Entry(va) == Some(EMPTY)
      ensures old(Translation(va)).Some? ==> r == Ok
      ensures r == Ok ==> forall v | UserVa(v) ::
                Translation(v) == if Path(v, levels) == Path(va, levels) then None else old(Translation(v))
      ensures r != Ok ==> mem == old(mem)
    {
      var w, e := Seek(va, false, alloc);
      r := if w.Missing? then Panics else if !IsUsed(e) && !e.flags.present then InvalidModification else Ok;
      if r == Ok { WriteLeaf(va, w.frame, w.index, EMPTY); }
    }

    /** Replaces the flags of one page: possible if and only if the page is translated. */
    method DoProtect(va: Vaddr, flags: Flags, alloc: FrameAllocator) returns (r: Outcome, oldFlags: Flags)
      requires Valid() && Disjoint(alloc) && UserVa(va)
      modifies this`mem, this`tables, this`tbl, alloc
      ensures Valid() && Disjoint(alloc) && alloc.free == old(alloc.free) && tables == old(tables)
      ensures mem.Keys == old(mem.Keys) && SharedEntries(Shape()) == old(SharedEntries(Shape()))
      ensures r in {Ok, InvalidModification, Panics} && (r == Ok <==> old(Translation(va)).Some?)
      ensures r == Panics <==> old(Entry(va)) == None
      ensures r == Ok ==>
                && oldFlags == old(Translation(va)).value.flags
                && forall v | UserVa(v) ::
                     Translation(v) == if Path(v, levels) == Path(va, levels)
                                       then Shown(Pte(old(Translation(va)).value.paddr, flags))
                                       else old(Translation(v))
      ensures r != Ok ==> mem == old(mem)
    {
      var w, e := Seek(va, false, alloc);
      oldFlags := e.flags;
      r := if w.Missing? then Panics else if !IsUsed(e) || !oldFlags.present then InvalidModification else Ok;
      if r == Ok { WriteLeaf(va, w.frame, w.index, Pte(e.paddr, flags)); }
    }

    // The user-mode interface, for the four-level table that `MemorySet` uses.

    ghost predicate KernelHalf()
      reads this`shared
    {
      levels == 4 && forall i | i in shared :: i >= 256
    }

    method Map(va: Vaddr, paddr: Paddr, flags: Flags, alloc: FrameAllocator) returns (r: Outcome)
      requires Valid() && Disjoint(alloc) && KernelHalf()
      modifies this`mem, this`tables, this`tbl, alloc
      ensures Valid() && Disjoint(alloc) && alloc.free <= old(alloc.free) && mem.Keys <= old(mem.Keys) + old(alloc.free)
      ensures SharedEntries(Shape()) == old(SharedEntries(Shape()))
      ensures r == InvalidVaddr <==> IsKernelVaddr(va)
      ensures r == Panics ==> Starved(va, alloc)
      ensures !IsKernelVaddr(va) ==>
                && (r == Panics <==> |old(alloc.free)| < old(|Lacking(tbl, Path(va, levels))|))
                && (r == InvalidModification <==> old(Translation(va)).Some?)
      ensures r == Ok ==>
                && old(Translation(va)) == None
                && forall v: Vaddr | v < USER_TOP ::
                     Translation(v) == if PageBase(v) == PageBase(Resolved(va))
                                       then Shown(Pte(paddr, flags))
                                       else old(Translation(v))
      ensures r != Ok ==> forall v: Vaddr | v < USER_TOP :: Translation(v) == old(Translation(v))
    {
      if IsKernelVaddr(va) { return InvalidVaddr; }
      UserVaBelow(va);
      r := DoMap(va, paddr, flags, alloc);
      UserPages(va);
    }

    method Unmap(va: Vaddr, alloc: FrameAllocator) returns (r: Outcome)
      requires Valid() && Disjoint(alloc) && KernelHalf()
      modifies this`mem, this`tables, this`tbl, alloc
      ensures Valid() && Disjoint(alloc) && alloc.free == old(alloc.free) && mem.Keys == old(mem.Keys)
      ensures SharedEntries(Shape()) == old(SharedEntries(Shape()))
      ensures r == InvalidVaddr <==> IsKernelVaddr(va)
      ensures !IsKernelVaddr(va) ==>
                && (r == Panics <==> old(Entry(va)) == None)
                && (r == InvalidModification <==> old(Entry(va)) == Some(EMPTY))
                && (old(Translation(va)).Some? ==> r == Ok)
      ensures r == Ok ==> forall v: Vaddr | v < USER_TOP ::
                Translation(v) == if PageBase(v) == PageBase(Resolved(va)) then None else old(Translation(v))
      ensures r != Ok ==> forall v: Vaddr | v < USER_TOP :: Translation(v) == old(Translation(v))
    {
      if IsKernelVaddr(va) { return InvalidVaddr; }
      UserVaBelow(va);
      r := DoUnmap(va, alloc);
      UserPages(va);
    }

    method Protect(va: Vaddr, flags: Flags, alloc: FrameAllocator) returns (r: Outcome, oldFlags: Flags)
      requires Valid() && Disjoint(alloc) && KernelHalf()
      modifies this`mem, this`tables, this`tbl, alloc
      ensures Valid() && Disjoint(alloc) && alloc.free == old(alloc.free) && mem.Keys == old(mem.Keys)
      ensures SharedEntries(Shape()) == old(SharedEntries(Shape()))
      ensures r == InvalidVaddr <==> IsKernelVaddr(va)
      ensures !IsKernelVaddr(va) ==>
                && (r == Ok <==> old(Translation(va)).Some?)
                && (r == Panics <==> old(Entry(va)) == None)
      ensures r == Ok ==>
                && oldFlags == old(Translation(va)).value.flags
                && forall v: Vaddr | v < USER_TOP ::
                     Translation(v) == if PageBase(v) == PageBase(Resolved(va))
                                       then Shown(Pte(old(Translation(va)).value.paddr, flags))
                                       else old(Translation(v))
      ensures r != Ok ==> forall v: Vaddr | v < USER_TOP :: Translation(v) == old(Translation(v))
    {
      if IsKernelVaddr(va) { return InvalidVaddr, EMPTY.flags; }
      UserVaBelow(va);
      r, oldFlags := DoProtect(va, flags, alloc);
      UserPages(va);
    }

    lemma UserAllowsByEntry()
      requires Valid() && KernelHalf()
      ensures forall v: Vaddr | v < USER_TOP :: Allows(v) == EntryGrants(Translation(v))
    {
      forall v: Vaddr | v < USER_TOP ensures Allows(v) == EntryGrants(Translation(v)) {
        UserVaBelow(v);
        AllowsByEntry(v);
      }
    }

    lemma UserPages(va: Vaddr)
      requires KernelHalf() && !IsKernelVaddr(va)
      ensures forall v: Vaddr | v < USER_TOP ::
                UserVa(v) && (Path(v, levels) == Path(va, levels) <==> PageBase(v) == PageBase(Resolved(va)))
    {
      KernelBitIsUpperHalf(va);
      PathWraps(va, levels);
      forall v: Vaddr | v < USER_TOP
        ensures UserVa(v) && (Path(v, levels) == Path(va, levels) <==> PageBase(v) == PageBase(Resolved(va)))
      {
        UserVaBelow(v);
        SamePathSamePage(v, Resolved(va), levels);
      }
    }

    /** The walk for an address is the walk for the one it resolves to. */
    lemma Resolves(va: Vaddr)
      requires Valid() && KernelHalf() && !IsKernelVaddr(va)
      ensures Translation(va) == Translation(Resolved(va))
    {
      KernelBitIsUpperHalf(va);
      UserVaBelow(va);
      UserVaBelow(Resolved(va));
      PathWraps(va, levels);
      TranslationIsLeaf(Shape(), va);
      TranslationIsLeaf(Shape(), Resolved(va));
    }

    lemma UserVaBelow(va: Vaddr)
      requires KernelHalf() && (va < USER_TOP || !IsKernelVaddr(va))
      ensures UserVa(va)
      ensures va < USER_TOP ==> !IsKernelVaddr(va)
    {
      KernelBitIsUpperHalf(va);
      KernelBitIsRootHalf(va, levels);
    }
  }

  /** The tables resolve 48 bits of an address; user addresses are the first half of that space. */
  const VA_SPACE: nat := 0x1_0000_0000_0000
  const USER_TOP: nat := 0x8000_0000_0000

  /** The address whose page the tables hold for `va`. */
  function Resolved(va: Vaddr): (r: Vaddr)
    ensures va < USER_TOP ==> r == va
  {
    va % VA_SPACE
  }

  /** `((vaddr >> 47) & 0x1) == 1`. */
  predicate IsKernelVaddr(va: Vaddr) { And(Shr(va, 47), 1) == 1 }

  function PageBase(va: Vaddr): Vaddr { va - va % PAGE_SIZE }

  lemma KernelBitIsRootHalf(va: Vaddr, levels: nat)
    requires levels == 4
    ensures IsKernelVaddr(va) <==> Path(va, levels)[0] >= 256
  {
    PageIndexIsDigit(va, levels, levels);
    var k := 12 + 9 * (levels - 1);
    var x := Shr(va, k);
    IndexBelow(x);
    ShrAdd(va, k, 8);
    TopHalfOfDigit(x);
  }

  lemma TopHalfOfDigit(x: nat)
    ensures And(Shr(x, 8), 1) == 1 <==> x % 512 >= 256
  {
    assert Pow2(8) == 256;
    ShrLow(x, 8, 256);
    var y := Shr(x, 8);
    AndLowMask(y, 1, 2);
    assert Low(y, 1) == y % 2;
  }

  /** The test looks at bit 47 alone. */
  lemma {:induction false} KernelBitIsUpperHalf(va: Vaddr)
    ensures IsKernelVaddr(va) <==> Resolved(va) >= USER_TOP
  {
    assert Pow2(47) == USER_TOP by {
      Pow2Values();
      Pow2Add(32, 12);
      assert Pow2(3) == 8;
      Pow2Add(44, 3);
    }
    ShrLow(va, 47, USER_TOP);
    var y := Shr(va, 47);
    AndLowMask(y, 1, 2);
    assert Low(y, 1) == y % 2;
  }

  /** So an address of 2^48 or more that passes the test is taken for another one, below 2^47. */
  lemma {:induction false} PathWraps(va: Vaddr, levels: nat)
    requires levels == 4
    ensures Path(va, levels) == Path(Resolved(va), levels)
  {
    assert Pow512(4) == 0x10_0000_0000;
    DigitsWrap(va / PAGE_SIZE, levels, 0x10_0000_0000);
    assert Resolved(va) / PAGE_SIZE == va / PAGE_SIZE % 0x10_0000_0000 by { PageResolves(va); }
  }

  lemma PageResolves(va: Vaddr)
    ensures Resolved(va) / PAGE_SIZE == va / PAGE_SIZE % 0x10_0000_0000
  {
  }

  lemma {:induction false} DigitsWrap(page: nat, n: nat, limit: nat)
    requires limit == Pow512(n)
    ensures limit > 0 && Digits(page, n) == Digits(page % limit, n)
  {
    if n > 0 {
      var rest := Pow512(n - 1);
      DigitsWrap(page / ENTRY_COUNT, n - 1, rest);
      WrapParts(page, rest, limit);
    }
  }

  lemma WrapParts(x: nat, m: nat, limit: nat)
    requires m > 0 && limit == 512 * m
    ensures x % limit / 512 == x / 512 % m && x % limit % 512 == x % 512
  {
    var a, b := x / 512, x % 512;
    var c, d := a / m, a % m;
    assert a == m * c + d;
    assert x == 512 * (m * c + d) + b;
    assert limit * c == 512 * (m * c) by { MulAssoc(m, c); }
    ModIs(x, limit, c, 512 * d + b);
  }

  lemma MulAssoc(m: nat, c: nat)
    ensures 512 * m * c == 512 * (m * c)
  {
  }

  lemma ModIs(x: nat, m: nat, c: nat, r: nat)
    requires x == m * c + r && r < m
    ensures x % m == r
  {
    var q, s := x / m, x % m;
    assert x == m * q + s;
    assert m * (q - c) == r - s by { assert m * (q - c) == m * q - m * c; }
    if q != c { FarApart(m, q - c); }
  }

  lemma Stretch(m: nat, j: nat)
    ensures m * (j + 1) == m * j + m && m * j >= 0 && m * (-(j + 1)) == -(m * (j + 1))
  {
  }

  lemma FarApart(m: nat, k: int)
    requires k != 0
    ensures m * k >= m || m * k + m <= 0
  {
    if k > 0 { Stretch(m, k - 1); } else { Stretch(m, -k - 1); }
  }

  /** Only an address below 2^47 is on the page that is changed for it; 2^48 passes the test, and page 0 is changed. */
  lemma OwnPageIff(va: Vaddr)
    requires !IsKernelVaddr(va)
    ensures PageBase(Resolved(va)) == PageBase(va) <==> va < USER_TOP
    ensures !IsKernelVaddr(VA_SPACE) && PageBase(Resolved(VA_SPACE)) == PageBase(0)
  {
    KernelBitIsUpperHalf(va);
    KernelBitIsUpperHalf(VA_SPACE);
  }

  lemma SamePathSamePage(v: Vaddr, w: Vaddr, levels: nat)
    requires v < USER_TOP && w < USER_TOP && levels == 4
    ensures Path(v, levels) == Path(w, levels) <==> PageBase(v) == PageBase(w)
  {
    assert Pow512(4) == 0x10_0000_0000;
    DigitsInjective(v / PAGE_SIZE, w / PAGE_SIZE, levels);
  }

  ghost function RootMapped(t: Tree, index: nat, pte: Pte): Tree
    requires t.root in t.mem && index < |t.mem[t.root]|
  {
    t.(mem := SetEntry(t.mem, t.root, index, pte), shared := t.shared + {index})
  }

  lemma RootMapping(t: Tree, index: nat, pte: Pte)
    requires Wf(t) && index < ENTRY_COUNT && t.levels > 1
    requires t.root in t.mem && index < |t.mem[t.root]|
    requires index in t.shared || !t.mem[t.root][index].flags.present
    ensures Wf(RootMapped(t, index, pte))
  {
    var t' := RootMapped(t, index, pte);
    NoTableBelow(t, index);
    forall q | q in t'.tbl ensures TableOk(t', q) { assert TableOk(t, q); }
    forall q, q2 | q in t'.tbl && q2 in t'.tbl ensures Apart(t', q, q2) { assert Apart(t, q, q2); }
    forall q, k: nat | q in t'.tbl && Inner(t', q, k)
      ensures LinkOk(t', q, k)
    {
      assert Inner(t, q, k) && LinkOk(t, q, k) && Apart(t, q, []);
    }
  }

  lemma NoTableBelow(t: Tree, index: nat)
    requires Wf(t) && index < ENTRY_COUNT && t.levels > 1
    requires t.root in t.mem && index < |t.mem[t.root]|
    requires index in t.shared || !t.mem[t.root][index].flags.present
    ensures forall q | q in t.tbl && q != [] :: q[0] != index
  {
    forall q | q in t.tbl && q != [] ensures q[0] != index {
      assert TableOk(t, q);
      PrefixExists(t, q, 1);
      assert q[..1] == [] + [q[0]];
      assert index !in t.shared ==> Inner(t, [], index) && LinkOk(t, [], index);
    }
  }

  lemma RootMappingKeepsLeaf(t: Tree, index: nat, pte: Pte, path: seq<nat>)
    requires Wf(t) && index < ENTRY_COUNT && t.levels > 1
    requires t.root in t.mem && index < |t.mem[t.root]|
    requires |path| == t.levels
    ensures Leaf(RootMapped(t, index, pte), path) == Leaf(t, path)
  {
    var q := path[..t.levels - 1];
    if q in t.tbl { assert Apart(t, q, []); }
  }
}
