/** The split virtqueue of virtio (section 2.6 of OASIS VIRTIO 1.1): descriptors that are
    either free or part of a request in flight, both linked through one `next` field,
    and two rings indexed by counters that wrap at 16 bits. */
module VirtQueues {
  import opened Bits
  import opened Options

  datatype Buf = Buf(addr: nat, len: nat)

  /** The NEXT and WRITE bits of a descriptor. */
  datatype DescFlags = DescFlags(next: bool, write: bool)

  datatype Desc = Desc(buf: Buf, flags: DescFlags, next: nat)

  datatype Request = Request(inputs: seq<Buf>, outputs: seq<Buf>)

  datatype UsedElem = UsedElem(id: nat, len: nat)

  datatype Chain = Chain(descs: seq<nat>, req: Request)

  /** The free list, and the chains in flight by their first descriptor. */
  datatype Queue = Queue(free: seq<nat>, chains: map<nat, Chain>)

  datatype Place = InFree(k: nat) | InChain(head: nat, k: nat)

  function Wrap(x: nat): nat { x % 0x1_0000 }

  // ---- Links and requests ----

  /** `c` is a run of descriptors, each pointing at the next; the last may point anywhere. */
  ghost predicate Linked(d: seq<Desc>, c: seq<nat>) {
    && (forall k | 0 <= k < |c| :: c[k] < |d|)
    && (forall k | 0 <= k < |c| - 1 :: d[c[k]].next == c[k + 1])
  }

  /** The chain carries the request: readable buffers first, then writable ones, NEXT on all but the last. */
  ghost predicate Serves(d: seq<Desc>, chain: Chain) {
    var c, bufs := chain.descs, chain.req.inputs + chain.req.outputs;
    && |c| == |bufs| > 0
    && (forall k | 0 <= k < |c| :: c[k] < |d|)
    && (forall k | 0 <= k < |c| ::
          d[c[k]].buf == bufs[k] && d[c[k]].flags == DescFlags(k < |c| - 1, k >= |chain.req.inputs|))
  }

  ghost predicate LinksOk(d: seq<Desc>, q: Queue) {
    && Linked(d, q.free)
    && (forall h | h in q.chains :: ChainOk(d, h, q.chains[h]))
  }

  ghost predicate ChainOk(d: seq<Desc>, h: nat, chain: Chain) {
    Linked(d, chain.descs) && Serves(d, chain) && chain.descs[0] == h
  }

  /** Free list and chains have every descriptor exactly once: `place` is the inverse of both. */
  ghost predicate Partition(q: Queue, place: seq<Place>) {
    && FreePlaced(q.free, place)
    && (forall h | h in q.chains :: ChainPlaced(h, q.chains[h].descs, place))
    && (forall x | 0 <= x < |place| :: Holds(q, place[x], x))
  }

  ghost predicate FreePlaced(free: seq<nat>, place: seq<Place>) {
    forall k | 0 <= k < |free| :: free[k] < |place| && place[free[k]] == InFree(k)
  }

  ghost predicate ChainPlaced(h: nat, c: seq<nat>, place: seq<Place>) {
    && c != [] && c[0] == h
    && forall k | 0 <= k < |c| :: c[k] < |place| && place[c[k]] == InChain(h, k)
  }

  ghost predicate Holds(q: Queue, p: Place, x: nat) {
    match p
    case InFree(k) => k < |q.free| && q.free[k] == x
    case InChain(h, k) => h in q.chains && k < |q.chains[h].descs| && q.chains[h].descs[k] == x
  }

  // ---- Adding a request ----

  /** `add` takes the request's descriptors off the front of the free list. */
  function Added(q: Queue, req: Request): Queue
    requires 0 < |req.inputs| + |req.outputs| <= |q.free|
  {
    var n := |req.inputs| + |req.outputs|;
    Queue(q.free[n..], q.chains[q.free[0] := Chain(q.free[..n], req)])
  }

  /** What the filling loops have made of a descriptor after `i` buffers. */
  function FilledDesc(x: Desc, p: Place, bufs: seq<Buf>, inputs: nat, i: nat): Desc
    requires i <= |bufs|
  {
    if p.InFree? && p.k < i then Desc(bufs[p.k], DescFlags(true, p.k >= inputs), x.next) else x
  }

  ghost predicate Filled(d0: seq<Desc>, d: seq<Desc>, place: seq<Place>, bufs: seq<Buf>, inputs: nat, i: nat) {
    && |d| == |d0| == |place| && i <= |bufs|
    && forall x | 0 <= x < |d| :: d[x] == FilledDesc(d0[x], place[x], bufs, inputs, i)
  }

  function AddedPlace(p: Place, head: nat, n: nat): Place {
    match p
    case InFree(k) => if k < n then InChain(head, k) else InFree(k - n)
    case InChain(_, _) => p
  }

  function AddedPlaces(place: seq<Place>, head: nat, n: nat): seq<Place> {
    seq(|place|, x requires 0 <= x < |place| => AddedPlace(place[x], head, n))
  }

  lemma AddKeepsPartition(q: Queue, place: seq<Place>, req: Request, n: nat)
    requires Partition(q, place) && 0 < n <= |q.free| && n == |req.inputs| + |req.outputs|
    ensures q.free[0] !in q.chains && Partition(Added(q, req), AddedPlaces(place, q.free[0], n))
  {
    var q', head, place' := Added(q, req), q.free[0], AddedPlaces(place, q.free[0], n);
    assert place[head] == InFree(0);
    assert head in q.chains ==> ChainPlaced(head, q.chains[head].descs, place);
    AddedFreePlaced(q.free, place, n);
    forall h | h in q'.chains ensures ChainPlaced(h, q'.chains[h].descs, place') {
      if h != head { AddedChainPlaced(h, q.chains[h].descs, place, head, n); }
    }
    forall x | 0 <= x < |place'| ensures Holds(q', place'[x], x) { AddedHolds(q, req, n, place[x], x); }
  }

  lemma AddedFreePlaced(free: seq<nat>, place: seq<Place>, n: nat)
    requires FreePlaced(free, place) && 0 < n <= |free|
    ensures FreePlaced(free[n..], AddedPlaces(place, free[0], n))
    ensures ChainPlaced(free[0], free[..n], AddedPlaces(place, free[0], n))
  {
  }

  lemma AddedChainPlaced(h: nat, c: seq<nat>, place: seq<Place>, head: nat, n: nat)
    requires ChainPlaced(h, c, place)
    ensures ChainPlaced(h, c, AddedPlaces(place, head, n))
  {
  }

  lemma AddedHolds(q: Queue, req: Request, n: nat, p: Place, x: nat)
    requires 0 < n <= |q.free| && n == |req.inputs| + |req.outputs| && q.free[0] !in q.chains && Holds(q, p, x)
    ensures Holds(Added(q, req), AddedPlace(p, q.free[0], n), x)
  {
  }

  function WithoutNext(d: seq<Desc>, x: nat): seq<Desc>
    requires x < |d|
  {
    d[x := Desc(d[x].buf, DescFlags(false, d[x].flags.write), d[x].next)]
  }

  /** A request that is filled in, with NEXT taken off its last descriptor, is a chain of its own. */
  lemma AddKeepsLinks(d0: seq<Desc>, d: seq<Desc>, q: Queue, place: seq<Place>, req: Request, n: nat)
    requires Partition(q, place) && LinksOk(d0, q) && 0 < n <= |q.free| && n == |req.inputs| + |req.outputs|
    requires Filled(d0, d, place, req.inputs + req.outputs, |req.inputs|, n)
    ensures LinksOk(WithoutNext(d, q.free[n - 1]), Added(q, req))
  {
    var d', q' := WithoutNext(d, q.free[n - 1]), Added(q, req);
    forall h | h in q'.chains ensures ChainOk(d', h, q'.chains[h]) {
      if h == q.free[0] { NewChainOk(d0, d, q, place, req, n); } else { OldChainKept(d0, d, q, place, req, n, h); }
    }
  }

  lemma NewChainOk(d0: seq<Desc>, d: seq<Desc>, q: Queue, place: seq<Place>, req: Request, n: nat)
    requires Partition(q, place) && Linked(d0, q.free) && 0 < n <= |q.free| && n == |req.inputs| + |req.outputs|
    requires Filled(d0, d, place, req.inputs + req.outputs, |req.inputs|, n)
    ensures ChainOk(WithoutNext(d, q.free[n - 1]), q.free[0], Chain(q.free[..n], req))
  {
    forall k | 0 <= k < n ensures place[q.free[k]] == InFree(k) {}
  }

  lemma OldChainKept(d0: seq<Desc>, d: seq<Desc>, q: Queue, place: seq<Place>, req: Request, n: nat, h: nat)
    requires Partition(q, place) && LinksOk(d0, q) && 0 < n <= |q.free| && n == |req.inputs| + |req.outputs|
    requires h in q.chains
    requires Filled(d0, d, place, req.inputs + req.outputs, |req.inputs|, n)
    ensures ChainOk(WithoutNext(d, q.free[n - 1]), h, q.chains[h])
  {
    assert ChainOk(d0, h, q.chains[h]);
    var c, d' := q.chains[h].descs, WithoutNext(d, q.free[n - 1]);
    forall k | 0 <= k < |c| ensures d'[c[k]] == d0[c[k]] {
      assert place[c[k]] == InChain(h, k) && place[q.free[n - 1]] == InFree(n - 1);
    }
  }

  // ---- Recycling a chain ----

  /** `recycle_descriptors` puts the chain in front of the free list. */
  function Recycled(q: Queue, head: nat): Queue
    requires head in q.chains
  {
    Queue(q.chains[head].descs + q.free, q.chains - {head})
  }

  /** The slot before `head`, whose `next` the code overwrites as well. */
  function Prev(head: nat, size: nat): nat
    requires head < size
  {
    if head == 0 then size - 1 else head - 1
  }

  /** A place whose descriptor points at another that matters: in a chain or in the free list, and not the last there.
      */
  ghost predicate Interior(q: Queue, p: Place) {
    match p
    case InFree(k) => k < |q.free| - 1
    case InChain(h, k) => h in q.chains && k < |q.chains[h].descs| - 1
  }

  ghost predicate Safe(q: Queue, place: seq<Place>, head: nat)
    requires head < |place|
  {
    !Interior(q, place[Prev(head, |place|)])
  }

  /** The overwritten slot is inside the chain being recycled. */
  ghost predicate OwnInterior(q: Queue, place: seq<Place>, head: nat)
    requires head < |place|
  {
    var p := place[Prev(head, |place|)];
    p.InChain? && p.head == head && Interior(q, p)
  }

  function WithNext(d: seq<Desc>, x: nat, next: nat): seq<Desc>
    requires x < |d|
  {
    d[x := d[x].(next := next)]
  }

  /** The descriptor table after recycling, given the old head of the free list. */
  function RecycledDescs(d: seq<Desc>, head: nat, last: nat, freeHead: nat): seq<Desc>
    requires head < |d| && last < |d|
  {
    WithNext(WithNext(d, Prev(head, |d|), head), last, freeHead)
  }

  function RecycledPlace(p: Place, head: nat, n: nat): Place {
    match p
    case InFree(k) => InFree(k + n)
    case InChain(h, k) => if h == head then InFree(k) else p
  }

  function RecycledPlaces(place: seq<Place>, head: nat, n: nat): seq<Place> {
    seq(|place|, x requires 0 <= x < |place| => RecycledPlace(place[x], head, n))
  }

  lemma RecycleKeepsPartition(q: Queue, place: seq<Place>, head: nat, n: nat)
    requires Partition(q, place) && head in q.chains && n == |q.chains[head].descs|
    ensures Partition(Recycled(q, head), RecycledPlaces(place, head, n))
  {
    var q', place' := Recycled(q, head), RecycledPlaces(place, head, n);
    assert ChainPlaced(head, q.chains[head].descs, place);
    forall k | 0 <= k < |q'.free| ensures q'.free[k] < |place'| && place'[q'.free[k]] == InFree(k) {
      if k >= n { assert q'.free[k] == q.free[k - n]; }
    }
    forall h | h in q'.chains ensures ChainPlaced(h, q'.chains[h].descs, place') {
      assert ChainPlaced(h, q.chains[h].descs, place);
    }
    forall x | 0 <= x < |place'| ensures Holds(q', place'[x], x) { assert Holds(q, place[x], x); }
  }

  /** The extra write leaves every link as it should be exactly when its slot is not an interior one. */
  lemma ExtraWriteIff(d: seq<Desc>, q: Queue, place: seq<Place>, head: nat)
    requires Partition(q, place) && LinksOk(d, q) && |d| == |place| && head in q.chains
    ensures head < |d| && (LinksOk(WithNext(d, Prev(head, |d|), head), q) <==> Safe(q, place, head))
  {
    var prev, d' := Prev(q.chains[head].descs[0], |d|), WithNext(d, Prev(head, |d|), head);
    assert place[head] == InChain(head, 0) && Holds(q, place[prev], prev);
    if Safe(q, place, head) {
      SafeWriteKeeps(d, q, place, prev, head);
    } else {
      match place[prev]
      case InFree(k) => assert place[q.free[k + 1]] == InFree(k + 1) && d'[q.free[k]].next == head;
      case InChain(h, k) =>
        var c := q.chains[h].descs;
        assert place[c[k + 1]] == InChain(h, k + 1) && d'[c[k]].next == head;
        assert !Linked(d', c);
        assert !ChainOk(d', h, q.chains[h]);
    }
  }

  /** Writing `next` of a slot that is not interior does not touch a link. */
  lemma SafeWriteKeeps(d: seq<Desc>, q: Queue, place: seq<Place>, x: nat, next: nat)
    requires Partition(q, place) && LinksOk(d, q) && |d| == |place| && x < |d| && !Interior(q, place[x])
    ensures LinksOk(WithNext(d, x, next), q)
  {
    var d' := WithNext(d, x, next);
    forall k | 0 <= k < |q.free| - 1 ensures d'[q.free[k]].next == q.free[k + 1] {
      assert place[q.free[k]] == InFree(k);
    }
    forall h | h in q.chains ensures ChainOk(d', h, q.chains[h]) {
      assert ChainOk(d, h, q.chains[h]);
      var c := q.chains[h].descs;
      forall k | 0 <= k < |c| - 1 ensures d'[c[k]].next == c[k + 1] { assert place[c[k]] == InChain(h, k); }
    }
  }

  /** Recycling gives a well-linked queue exactly when the overwritten slot was not an interior one. */
  lemma RecycleIff(d: seq<Desc>, q: Queue, place: seq<Place>, head: nat, freeHead: nat)
    requires Partition(q, place) && LinksOk(d, q) && |d| == |place| && head in q.chains
    requires q.free != [] ==> freeHead == q.free[0]
    requires head < |place| && !OwnInterior(q, place, head)
    ensures var c := q.chains[head].descs;
            && c[|c| - 1] < |d|
            && (LinksOk(RecycledDescs(d, head, c[|c| - 1], freeHead), Recycled(q, head)) <==> Safe(q, place, head))
  {
    var c := q.chains[head].descs;
    var last := c[|c| - 1];
    var d1 := WithNext(d, Prev(head, |d|), head);
    var d' := WithNext(d1, last, freeHead);
    assert place[last] == InChain(head, |c| - 1) && ChainOk(d, head, q.chains[head]);
    ExtraWriteIff(d, q, place, head);
    if Safe(q, place, head) {
      SafeWriteKeeps(d1, q, place, last, freeHead);
      assert ChainOk(d', head, q.chains[head]);
      assert d'[last].next == freeHead;
    } else {
      UnsafeRecycleBreaks(d, q, place, head, d', last);
    }
  }

  lemma UnsafeRecycleBreaks(d: seq<Desc>, q: Queue, place: seq<Place>, head: nat, d': seq<Desc>, last: nat)
    requires Partition(q, place) && LinksOk(d, q) && |d| == |d'| == |place| && head in q.chains && head < |place|
    requires last == q.chains[head].descs[|q.chains[head].descs| - 1]
    requires !OwnInterior(q, place, head) && !Safe(q, place, head)
    requires forall x | 0 <= x < |d| && x != last && x == Prev(head, |d|) :: d'[x].next == head
    ensures !LinksOk(d', Recycled(q, head))
  {
    var prev, q', n := Prev(head, |d|), Recycled(q, head), |q.chains[head].descs|;
    assert place[head] == InChain(head, 0) && place[last] == InChain(head, n - 1) && Holds(q, place[prev], prev);
    match place[prev]
    case InFree(k) =>
      assert q'.free[k + n] == prev && q'.free[k + n + 1] == q.free[k + 1];
      assert place[q.free[k + 1]] == InFree(k + 1);
    case InChain(h, k) =>
      var c := q.chains[h].descs;
      assert place[c[k + 1]] == InChain(h, k + 1);
      assert !Linked(d', c);
      assert !ChainOk(d', h, q'.chains[h]);
  }


  /** The descriptor reached from `x` by following `next` `t` times. */
  function Nth(d: seq<Desc>, x: nat, t: nat): nat {
    if t == 0 then x else
      var y := Nth(d, x, t - 1);
      if y < |d| then d[y].next else y
  }

  /** Following `next` from `x` gives the descriptors of `c`, of which the last alone has no NEXT. */
  ghost predicate Ends(d: seq<Desc>, x: nat, c: seq<nat>) {
    && c != [] && c[0] == x && Linked(d, c)
    && forall k | 0 <= k < |c| :: c[k] < |d| && (d[c[k]].flags.next <==> k < |c| - 1)
  }

  ghost predicate GoesOnAt(d: seq<Desc>, x: nat, t: nat) { Nth(d, x, t) < |d| && d[Nth(d, x, t)].flags.next }

  /** Following `next` from `x` never meets a descriptor without NEXT. */
  ghost predicate Endless(d: seq<Desc>, x: nat) { forall t: nat :: GoesOnAt(d, x, t) }

  lemma {:induction false} WalkGoesOn(d: seq<Desc>, q: Queue, place: seq<Place>, head: nat)
    requires Partition(q, place) && LinksOk(d, q) && |d| == |place| && head in q.chains && head < |place|
    requires OwnInterior(q, place, head)
    ensures Endless(WithNext(d, Prev(head, |d|), head), head)
  {
    forall t: nat ensures GoesOnAt(WithNext(d, Prev(head, |d|), head), head, t) {
      var k := RecycleNeverEnds(d, q, place, head, place[Prev(head, |place|)].k, t);
    }
  }

  /** With the overwritten slot inside the chain itself, at index `m`, the loop of `recycle_descriptors`
      goes round the first descriptors of the chain and never finds its end. */
  lemma {:induction false} RecycleNeverEnds(d: seq<Desc>, q: Queue, place: seq<Place>, head: nat, m: nat, t: nat)
    returns (k: nat)
    requires Partition(q, place) && LinksOk(d, q) && |d| == |place| && head in q.chains && head < |place|
    requires OwnInterior(q, place, head) && place[Prev(head, |place|)] == InChain(head, m)
    ensures k <= m
    ensures var d1 := WithNext(d, Prev(head, |d|), head);
            Nth(d1, head, t) == q.chains[head].descs[k] < |d1| && d1[Nth(d1, head, t)].flags.next
  {
    var c, prev := q.chains[head].descs, Prev(head, |d|);
    assert Holds(q, place[prev], prev) && ChainOk(d, head, q.chains[head]);
    if t == 0 {
      k := 0;
    } else {
      var j := RecycleNeverEnds(d, q, place, head, m, t - 1);
      assert place[c[j]] == InChain(head, j);
      k := if j == m then 0 else j + 1;
    }
  }

  // ---- What the device reads ----

  /** The descriptors a device visits from `x` on: it goes on while NEXT is set. */
  function Follow(d: seq<Desc>, x: nat, fuel: nat): seq<nat>
    decreases fuel
  {
    if x < |d| && d[x].flags.next && fuel > 0 then [x] + Follow(d, d[x].next, fuel - 1) else [x]
  }

  lemma {:induction false} FollowsChain(d: seq<Desc>, h: nat, chain: Chain, k: nat, fuel: nat)
    requires ChainOk(d, h, chain) && k < |chain.descs| && fuel >= |chain.descs| - 1 - k
    ensures Follow(d, chain.descs[k], fuel) == chain.descs[k..]
    decreases fuel
  {
    if k < |chain.descs| - 1 { FollowsChain(d, h, chain, k + 1, fuel - 1); }
  }

  /** A device that follows a request in flight finds its buffers in order, readable before writable, and stops after
      them. */
  lemma DeviceSeesRequest(d: seq<Desc>, q: Queue, place: seq<Place>, h: nat, k: nat)
    requires Partition(q, place) && LinksOk(d, q) && |d| == |place| && h in q.chains
    ensures var req, seen := q.chains[h].req, Follow(d, h, |d|);
            && |seen| == |req.inputs| + |req.outputs|
            && (k < |seen| ==> seen[k] < |d| && d[seen[k]].buf == (req.inputs + req.outputs)[k]
                               && (d[seen[k]].flags.write <==> k >= |req.inputs|))
  {
    assert ChainOk(d, h, q.chains[h]);
    ChainBound(q, place, h);
    FollowsChain(d, h, q.chains[h], 0, |d|);
    assert q.chains[h].descs[0..] == q.chains[h].descs;
  }

  // ---- Counting ----

  ghost predicate Distinct(s: seq<nat>) {
    forall i, j {:trigger Differ(s, i, j)} | 0 <= i < j < |s| :: Differ(s, i, j)
  }

  predicate Differ(s: seq<nat>, i: nat, j: nat)
    requires i < |s| && j < |s|
  {
    s[i] != s[j]
  }

  ghost function Upto(n: nat): (r: set<nat>)
    ensures |r| == n && forall x: nat :: x in r <==> x < n
  {
    if n == 0 then {} else Upto(n - 1) + {n - 1}
  }

  ghost function Elements(s: seq<nat>): (r: set<nat>)
    ensures forall x :: x in r <==> x in s
  {
    if s == [] then {} else Elements(s[..|s| - 1]) + {s[|s| - 1]}
  }

  lemma {:induction false} ElementsCard(s: seq<nat>)
    requires Distinct(s)
    ensures |Elements(s)| == |s|
  {
    if s != [] {
      var n := |s| - 1;
      forall i, j | 0 <= i < j < n ensures Differ(s[..n], i, j) { assert Differ(s, i, j); }
      ElementsCard(s[..n]);
      forall i | 0 <= i < n ensures s[i] != s[n] { assert Differ(s, i, n); }
    }
  }

  lemma DistinctBound(s: seq<nat>, n: nat)
    requires Distinct(s) && forall i | 0 <= i < |s| :: s[i] < n
    ensures |s| <= n
  {
    ElementsCard(s);
    SubsetCard(Elements(s), Upto(n));
  }

  lemma {:induction false} SubsetCard(a: set<nat>, b: set<nat>)
    requires a <= b
    ensures |a| <= |b|
  {
    if a != {} {
      var x :| x in a;
      SubsetCard(a - {x}, b - {x});
    }
  }

  lemma FreeBound(q: Queue, place: seq<Place>)
    requires Partition(q, place)
    ensures |q.free| <= |place|
  {
    forall i, j | 0 <= i < j < |q.free| ensures Differ(q.free, i, j) {
      assert place[q.free[i]] == InFree(i) && place[q.free[j]] == InFree(j);
    }
    DistinctBound(q.free, |place|);
  }

  lemma ChainBound(q: Queue, place: seq<Place>, h: nat)
    requires Partition(q, place) && h in q.chains
    ensures |q.chains[h].descs| + |q.free| <= |place|
  {
    RecycleKeepsPartition(q, place, h, |q.chains[h].descs|);
    FreeBound(Recycled(q, h), RecycledPlaces(place, h, |q.chains[h].descs|));
  }

  // ---- One request at a time, and two ----

  /** The free list of a new queue. */
  function AllFree(size: nat): Queue { Queue(seq(size, i requires 0 <= i < size => i), map[]) }

  /** A lone request in a new queue can be recycled safely, and that gives back the new queue. */
  lemma OneInFlight(size: nat, req: Request, place: seq<Place>)
    requires 0 < |req.inputs| + |req.outputs| <= size
    requires Partition(Added(AllFree(size), req), place) && |place| == size
    ensures Added(AllFree(size), req).chains.Keys == {0}
    ensures Safe(Added(AllFree(size), req), place, 0)
    ensures Recycled(Added(AllFree(size), req), 0) == AllFree(size)
  {
    var q, n := Added(AllFree(size), req), |req.inputs| + |req.outputs|;
    assert Holds(q, place[size - 1], size - 1);
    assert q.chains - {0} == map[];
    assert q.chains[0].descs + q.free == AllFree(size).free;
  }

  /** What a driver does to a queue: it adds a request, or it pops the request with the given head. */
  datatype Act = Submit(req: Request) | Finish(head: nat)

  /** A queue with the place of every descriptor. */
  datatype Table = Table(q: Queue, place: seq<Place>)

  ghost predicate Can(t: Table, act: Act) {
    match act
    case Submit(req) => 0 < |req.inputs| + |req.outputs| <= |t.q.free|
    case Finish(head) => head in t.q.chains
  }

  ghost function Do(t: Table, act: Act): Table
    requires Can(t, act)
  {
    match act
    case Submit(req) =>
      Table(Added(t.q, req), AddedPlaces(t.place, t.q.free[0], |req.inputs| + |req.outputs|))
    case Finish(head) => Table(Recycled(t.q, head), RecycledPlaces(t.place, head, |t.q.chains[head].descs|))
  }

  /** A run in which the slot that each pop overwrites is not an interior one. */
  ghost predicate SafeRun(t: Table, acts: seq<Act>, t': Table)
    decreases |acts|
  {
    if acts == [] then t == t'
    else
      && Can(t, acts[0])
      && (acts[0].Finish? ==> acts[0].head < |t.place| && Safe(t.q, t.place, acts[0].head))
      && SafeRun(Do(t, acts[0]), acts[1..], t')
  }

  ghost function FreeTable(size: nat): Table {
    Table(AllFree(size), seq(size, i requires 0 <= i < size => InFree(i)))
  }

  /** Each request is popped before the next one is made. */
  function OneByOne(reqs: seq<Request>): seq<Act> {
    if reqs == [] then [] else [Submit(reqs[0]), Finish(0)] + OneByOne(reqs[1..])
  }

  /** With one request in flight at a time, every pop of every run is safe, and the queue is as new between requests. */
  lemma {:induction false} OneAtATime(size: nat, reqs: seq<Request>)
    requires forall i | 0 <= i < |reqs| :: 0 < |reqs[i].inputs| + |reqs[i].outputs| <= size
    ensures SafeRun(FreeTable(size), OneByOne(reqs), FreeTable(size))
  {
    if reqs != [] {
      OneAtATime(size, reqs[1..]);
      var acts, t := OneByOne(reqs), FreeTable(size);
      OneRound(size, reqs[0]);
      var t1 := Do(t, acts[0]);
      assert acts[1..] == [Finish(0)] + OneByOne(reqs[1..]);
      assert acts[1..][1..] == OneByOne(reqs[1..]);
      assert SafeRun(t1, acts[1..], t);
    }
  }

  lemma OneRound(size: nat, req: Request)
    requires 0 < |req.inputs| + |req.outputs| <= size
    ensures Can(FreeTable(size), Submit(req))
    ensures var t := Do(FreeTable(size), Submit(req));
            0 < |t.place| && Can(t, Finish(0)) && Safe(t.q, t.place, 0) && Do(t, Finish(0)) == FreeTable(size)
  {
    var n, place := |req.inputs| + |req.outputs|, FreeTable(size).place;
    FreshPartition(size, req, n, place);
    OneInFlight(size, req, AddedPlaces(place, 0, n));
    PlacesReturn(place, n);
  }

  lemma FreshPartition(size: nat, req: Request, n: nat, place: seq<Place>)
    requires n == |req.inputs| + |req.outputs| && 0 < n <= size && place == FreeTable(size).place
    ensures |AddedPlaces(place, 0, n)| == size && Partition(Added(AllFree(size), req), AddedPlaces(place, 0, n))
    ensures Added(AllFree(size), req).chains.Keys == {0} && |Added(AllFree(size), req).chains[0].descs| == n
  {
    FreeIsPartition(size);
    AddKeepsPartition(AllFree(size), place, req, n);
  }

  lemma PlacesReturn(place: seq<Place>, n: nat)
    requires forall x | 0 <= x < |place| :: place[x].InFree?
    ensures RecycledPlaces(AddedPlaces(place, 0, n), 0, n) == place
  {
  }

  /** Two one-buffer requests in flight, popped in the order they were made: the second pop is not safe. It leaves a
      free list that goes from 1 to 0 and back to 1, whatever else was free. */
  lemma TwoInFlight(size: nat, a: Request, b: Request, place: seq<Place>, d: seq<Desc>)
    requires size >= 3 && |a.inputs| + |a.outputs| == 1 && |b.inputs| + |b.outputs| == 1
    requires Partition(Recycled(Added(Added(AllFree(size), a), b), 0), place) && |place| == |d| == size
    requires LinksOk(d, Recycled(Added(Added(AllFree(size), a), b), 0))
    ensures var q := Recycled(Added(Added(AllFree(size), a), b), 0);
            && q.free[0] == 0 && 1 in q.chains && q.chains[1].descs == [1] && !Safe(q, place, 1)
            && var d' := RecycledDescs(d, 1, 1, 0);
            !LinksOk(d', Recycled(q, 1)) && d'[1].next == 0 && d'[0].next == 1
  {
    var q := Recycled(Added(Added(AllFree(size), a), b), 0);
    assert q.free[0] == 0 && |q.free| == size - 1;
    assert place[q.free[0]] == InFree(0);
    assert q.chains[1].descs == [1];
    RecycleIff(d, q, place, 1, 0);
  }

  /** A run of safe pops on a queue of eight, after which a chain has the slot before its head inside it. */
  function ToOwnInterior(one: Request, two: Request, three: Request): seq<Act> {
    [Submit(one), Submit(one), Submit(one), Finish(0), Submit(two), Finish(2), Finish(0), Submit(one), Submit(three)]
  }

  /** The slot before `head` is the last of the free list, or of a chain. */
  lemma LastIsSafe(q: Queue, place: seq<Place>, head: nat, c: seq<nat>, h: nat)
    requires Partition(q, place) && head < |place| && c != [] && c[|c| - 1] == Prev(head, |place|)
    requires c == q.free || (h in q.chains && c == q.chains[h].descs)
    ensures Safe(q, place, head)
  {
    if c == q.free { assert place[q.free[|c| - 1]] == InFree(|c| - 1); }
    if h in q.chains && c == q.chains[h].descs { assert ChainPlaced(h, c, place); }
  }

  lemma {:induction false} RunOn(t: Table, first: seq<Act>, t1: Table, rest: seq<Act>, t2: Table)
    requires SafeRun(t, first, t1) && SafeRun(t1, rest, t2)
    ensures SafeRun(t, first + rest, t2)
    decreases |first|
  {
    if first == [] {
      assert first + rest == rest;
    } else {
      RunOn(Do(t, first[0]), first[1..], t1, rest, t2);
      assert (first + rest)[1..] == first[1..] + rest;
    }
  }

  ghost predicate Reached(size: nat, acts: seq<Act>, t: Table) {
    SafeRun(FreeTable(size), acts, t) && Partition(t.q, t.place) && |t.place| == size
  }

  lemma LastStep(t: Table, act: Act)
    requires Can(t, act) && (act.Finish? ==> act.head < |t.place| && Safe(t.q, t.place, act.head))
    ensures SafeRun(t, [act], Do(t, act))
  {
    assert SafeRun(Do(t, act), [act][1..], Do(t, act));
  }

  lemma ReachedMore(size: nat, acts: seq<Act>, t: Table, act: Act, t': Table)
    requires Reached(size, acts, t) && Can(t, act) && t' == Do(t, act) && Partition(t'.q, t'.place)
    requires |t'.place| == size
    requires act.Finish? ==> act.head < size && Safe(t.q, t.place, act.head)
    ensures Reached(size, acts + [act], t')
  {
    LastStep(t, act);
    RunOn(FreeTable(size), acts, t, [act], t');
  }

  lemma Submitted(size: nat, acts: seq<Act>, t: Table, req: Request, taken: seq<nat>, free: seq<nat>)
    returns (t': Table)
    requires Reached(size, acts, t) && t.q.free == taken + free && 0 < |taken| == |req.inputs| + |req.outputs|
    ensures Reached(size, acts + [Submit(req)], t')
    ensures t'.q.free == free && t'.q.chains == t.q.chains[taken[0] := Chain(taken, req)]
  {
    var n := |req.inputs| + |req.outputs|;
    AddKeepsPartition(t.q, t.place, req, n);
    t' := Table(Added(t.q, req), AddedPlaces(t.place, t.q.free[0], n));
    ReachedMore(size, acts, t, Submit(req), t');
  }

  lemma Finished(size: nat, acts: seq<Act>, t: Table, head: nat, last: seq<nat>, h: nat, free: seq<nat>)
    returns (t': Table)
    requires Reached(size, acts, t) && head in t.q.chains && head < size && t.q.chains[head].descs + t.q.free == free
    requires last == t.q.free || (h in t.q.chains && last == t.q.chains[h].descs)
    requires last != [] && last[|last| - 1] == Prev(head, size)
    ensures Reached(size, acts + [Finish(head)], t') && t'.q == Queue(free, t.q.chains - {head})
  {
    LastIsSafe(t.q, t.place, head, last, h);
    var n := |t.q.chains[head].descs|;
    RecycleKeepsPartition(t.q, t.place, head, n);
    t' := Table(Recycled(t.q, head), RecycledPlaces(t.place, head, n));
    ReachedMore(size, acts, t, Finish(head), t');
  }

  /** One-buffer requests in a row take one descriptor after the other. */
  lemma {:induction false} SinglesSubmitted(size: nat, one: Request, k: nat) returns (t: Table)
    requires k <= size && |one.inputs| + |one.outputs| == 1
    ensures Reached(size, seq(k, _ => Submit(one)), t) && t.q.free == AllFree(size).free[k..]
    ensures forall i | 0 <= i < k :: i in t.q.chains && t.q.chains[i].descs == [i]
  {
    if k == 0 {
      FreeIsPartition(size);
      t := FreeTable(size);
    } else {
      var t0 := SinglesSubmitted(size, one, k - 1);
      assert AllFree(size).free[k - 1..] == [k - 1] + AllFree(size).free[k..];
      t := Submitted(size, seq(k - 1, _ => Submit(one)), t0, one, [k - 1], AllFree(size).free[k..]);
      assert seq(k - 1, _ => Submit(one)) + [Submit(one)] == seq(k, _ => Submit(one));
    }
  }

  lemma FreeIsPartition(size: nat)
    ensures Partition(FreeTable(size).q, FreeTable(size).place)
  {
  }

  lemma ThreeSubmitted(size: nat, one: Request) returns (t: Table)
    requires size == 8 && |one.inputs| + |one.outputs| == 1
    ensures Reached(size, [Submit(one), Submit(one), Submit(one)], t)
    ensures t.q.free == [3, 4, 5, 6, 7] && {0, 1, 2} <= t.q.chains.Keys
    ensures t.q.chains[0].descs == [0] && t.q.chains[1].descs == [1] && t.q.chains[2].descs == [2]
  {
    t := SinglesSubmitted(size, one, 3);
    assert seq(3, _ => Submit(one)) == [Submit(one), Submit(one), Submit(one)];
  }

  /** The first is popped, and its descriptor starts a request of two buffers. */
  lemma ThenTwo(size: nat, acts: seq<Act>, t: Table, two: Request) returns (t': Table)
    requires size == 8 && |two.inputs| + |two.outputs| == 2 && Reached(size, acts, t)
    requires t.q.free == [3, 4, 5, 6, 7] && 0 in t.q.chains && t.q.chains[0].descs == [0]
    ensures Reached(size, acts + [Finish(0)] + [Submit(two)], t') && t'.q.free == [4, 5, 6, 7]
    ensures t'.q.chains == (t.q.chains - {0})[0 := Chain([0, 3], two)]
  {
    var free, rest := [0, 3, 4, 5, 6, 7], [4, 5, 6, 7];
    var t1 := Finished(size, acts, t, 0, t.q.free, 0, free);
    assert free == [0, 3] + rest;
    t' := Submitted(size, acts + [Finish(0)], t1, two, [0, 3], rest);
  }

  /** The third one and this one are popped, so that 3 comes before 2 in the free list. */
  lemma ThenBothPopped(size: nat, acts: seq<Act>, t: Table) returns (t': Table)
    requires size == 8 && Reached(size, acts, t) && t.q.free == [4, 5, 6, 7] && {0, 1, 2} <= t.q.chains.Keys
    requires t.q.chains[0].descs == [0, 3] && t.q.chains[1].descs == [1] && t.q.chains[2].descs == [2]
    ensures Reached(size, acts + [Finish(2)] + [Finish(0)], t') && t'.q.free == [0, 3, 2, 4, 5, 6, 7]
  {
    var t1 := Finished(size, acts, t, 2, t.q.chains[1].descs, 1, [2, 4, 5, 6, 7]);
    t' := Finished(size, acts + [Finish(2)], t1, 0, t1.q.free, 0, [0, 3, 2, 4, 5, 6, 7]);
  }

  /** Then 3 heads a request of three buffers. */
  lemma ThenThree(size: nat, acts: seq<Act>, t: Table, one: Request, three: Request) returns (t': Table)
    requires size == 8 && Reached(size, acts, t) && t.q.free == [0, 3, 2, 4, 5, 6, 7]
    requires |one.inputs| + |one.outputs| == 1 && |three.inputs| + |three.outputs| == 3
    ensures Reached(size, acts + [Submit(one)] + [Submit(three)], t')
    ensures 3 in t'.q.chains && t'.q.chains[3].descs == [3, 2, 4]
  {
    var t1 := Submitted(size, acts, t, one, [0], [3, 2, 4, 5, 6, 7]);
    t' := Submitted(size, acts + [Submit(one)], t1, three, [3, 2, 4], [5, 6, 7]);
  }

  /** Pops that are all safe can lead to a queue in which the next pop does not end. */
  lemma OwnInteriorIsReached(size: nat, one: Request, two: Request, three: Request) returns (t: Table)
    requires size == 8 && |one.inputs| + |one.outputs| == 1 && |two.inputs| + |two.outputs| == 2
    requires |three.inputs| + |three.outputs| == 3
    ensures SafeRun(FreeTable(size), ToOwnInterior(one, two, three), t) && Partition(t.q, t.place)
    ensures 3 in t.q.chains && 3 < |t.place| && OwnInterior(t.q, t.place, 3)
  {
    var acts: seq<Act> := [Submit(one), Submit(one), Submit(one)];
    t := ThreeSubmitted(size, one);
    t := ThenTwo(size, acts, t, two);
    acts := acts + [Finish(0)] + [Submit(two)];
    t := ThenBothPopped(size, acts, t);
    acts := acts + [Finish(2)] + [Finish(0)];
    t := ThenThree(size, acts, t, one, three);
    acts := acts + [Submit(one)] + [Submit(three)];
    assert acts == ToOwnInterior(one, two, three);
    PlaceInChain(t.q, t.place, 3, 1);
  }

  lemma PlaceInChain(q: Queue, place: seq<Place>, h: nat, k: nat)
    requires Partition(q, place) && h in q.chains && k < |q.chains[h].descs|
    ensures h < |place| && q.chains[h].descs[k] < |place| && place[q.chains[h].descs[k]] == InChain(h, k)
  {
    assert ChainPlaced(h, q.chains[h].descs, place);
    assert q.chains[h].descs[0] == h;
  }

  // ---- Rings ----

  /** The entries of a log from `from` on are in a ring of 2^bits slots, each at its index modulo the size. */
  ghost predicate RingOk<T>(ring: seq<T>, log: seq<T>, from: nat, bits: nat) {
    && |ring| == Pow2(bits) && from <= |log| <= from + |ring|
    && forall i | from <= i < |log| :: Low(i, bits) < |ring| && ring[Low(i, bits)] == log[i]
  }

  lemma {:induction false} LowLow(x: nat, k: nat, m: nat)
    requires k <= m
    ensures Low(Low(x, m), k) == Low(x, k)
  {
    if k > 0 { LowLow(x / 2, k - 1, m - 1); }
  }

  lemma {:induction false} LowDiffers(i: nat, j: nat, k: nat)
    requires i < j < i + Pow2(k)
    ensures Low(i, k) != Low(j, k)
  {
    if k > 0 && i % 2 == j % 2 { LowDiffers(i / 2, j / 2, k - 1); }
  }

  /** The slot the code computes from a wrapped index is that of the unwrapped one. */
  lemma SlotOfWrapped(i: nat, bits: nat, size: nat)
    requires size == Pow2(bits) && bits <= 16
    ensures And(Wrap(i), size - 1) == Low(i, bits) < size
  {
    Pow2Values();
    var p := 0x1_0000;
    ShrLow(i, 16, p);
    assert Wrap(i) == Low(i, 16);
    LowLow(i, bits, 16);
    AndLowMask(Wrap(i), bits, size);
    ShrLow(i, bits, size);
  }

  lemma RingPush<T>(ring: seq<T>, log: seq<T>, from: nat, from': nat, bits: nat, x: T)
    requires RingOk(ring, log, from, bits) && from <= from' <= |log| < from' + |ring| && Low(|log|, bits) < |ring|
    ensures RingOk(ring[Low(|log|, bits) := x], log + [x], from', bits)
  {
    forall i | from' <= i < |log| ensures Low(i, bits) != Low(|log|, bits) { LowDiffers(i, |log|, bits); }
  }

  lemma RingPop<T>(ring: seq<T>, log: seq<T>, from: nat, bits: nat)
    requires RingOk(ring, log, from, bits) && from < |log|
    ensures Low(from, bits) < |ring| && ring[Low(from, bits)] == log[from] && RingOk(ring, log, from + 1, bits)
  {
  }

  /** Two counters at most a ring apart are equal once wrapped only if they are equal. */
  lemma WrapTells(a: nat, b: nat, bits: nat)
    requires bits <= 8 && a <= b <= a + Pow2(bits)
    ensures Wrap(a) == Wrap(b) <==> a == b
  {
    RingIsShort(bits);
  }

  lemma {:induction false} RingIsShort(bits: nat)
    requires bits <= 8
    ensures Pow2(bits) <= 256
  {
    if bits < 8 { Pow2Monotone(bits, 8); }
  }

  lemma WrapNext(n: nat)
    ensures Wrap(Wrap(n) + 1) == Wrap(n + 1)
  {
  }

  // ---- The queue ----

  datatype AddResult = Token(head: nat) | InvalidArgs | BufferTooSmall

  datatype PopResult = Popped(id: nat, len: nat) | NotReady | WrongToken | Panicked

  /** The entries a ring of this size still holds. */
  function Recent(n: nat, size: nat): nat { if n < size then 0 else n - size }

  class VirtQueue {
    const size: nat
    const descs: array<Desc>
    const availRing: array<nat>
    const usedRing: array<UsedElem>
    /** The index fields of the two rings, shared with the device. */
    var availRingIdx: nat
    var usedRingIdx: nat
    var numUsed: nat
    var freeHead: nat
    var availIdx: nat
    var lastUsedIdx: nat

    ghost const bits: nat
    ghost var q: Queue
    ghost var place: seq<Place>
    /** Every head ever made available, every element ever used by the device, and how many of those were popped. */
    ghost var published: seq<nat>
    ghost var usedLog: seq<UsedElem>
    ghost var popped: nat

    ghost predicate Valid()
      reads this, descs, availRing, usedRing
    {
      && bits <= 8 && size == Pow2(bits) && descs.Length == size && availRing.Length == size && usedRing.Length == size
      && DescsOk() && AvailOk() && UsedOk()
    }

    ghost predicate DescsOk()
      reads this, descs
    {
      && |place| == descs.Length == size && Partition(q, place) && LinksOk(descs[..], q)
      && numUsed + |q.free| == size && (q.free != [] ==> freeHead == q.free[0])
    }

    ghost predicate AvailOk()
      reads this, availRing
    {
      availIdx == availRingIdx == Wrap(|published|) && RingOk(availRing[..], published, Recent(|published|, size), bits)
    }

    /** The device has used each chain at most once, and what it used and is not yet popped is in flight. */
    ghost predicate UsedOk()
      reads this, usedRing
    {
      && popped <= |usedLog| && lastUsedIdx == Wrap(popped) && usedRingIdx == Wrap(|usedLog|)
      && RingOk(usedRing[..], usedLog, popped, bits)
      && PendingOk(q, usedLog[popped..])
    }

    /** `VirtQueue::new` after its checks: it links every descriptor to the next. */
    constructor (size: nat, ghost bits: nat)
      requires bits <= 8 && size == Pow2(bits)
      ensures Valid() && fresh(descs) && fresh(availRing) && fresh(usedRing)
      ensures this.size == size && q == AllFree(size) && published == [] && usedLog == [] && popped == 0
    {
      var empty := Desc(Buf(0, 0), DescFlags(false, false), 0);
      var table := new Desc[size](_ => empty);
      for i := 0 to size - 1
        invariant forall k | 0 <= k < i :: table[k].next == k + 1
      {
        table[i] := Desc(table[i].buf, table[i].flags, i + 1);
      }
      this.size, this.bits := size, bits;
      descs, availRing, usedRing := table, new nat[size](_ => 0), new UsedElem[size](_ => UsedElem(0, 0));
      availRingIdx, usedRingIdx, numUsed, freeHead, availIdx, lastUsedIdx := 0, 0, 0, 0, 0, 0;
      q, published, usedLog, popped := AllFree(size), [], [], 0;
      place := seq(size, k requires 0 <= k < size => InFree(k));
    }

    /** The two filling loops of `add_buf` and `add_vm`: `bufs` are the request's buffers from number `at` on. */
    method Fill(bufs: seq<Buf>, write: bool, ghost at: nat, ghost all: seq<Buf>, ghost inputs: nat, ghost d0: seq<Desc>,
                last0: nat) returns (last: nat)
      requires descs.Length == size == |d0| == |place| && Partition(q, place) && Linked(d0, q.free)
      requires at + |bufs| <= |all| <= |q.free| && bufs == all[at..at + |bufs|]
      requires if write then inputs <= at else at + |bufs| <= inputs
      requires Filled(d0, descs[..], place, all, inputs, at)
      requires at < |q.free| ==> freeHead == q.free[at]
      requires at > 0 ==> last0 == q.free[at - 1]
      modifies this`freeHead, descs
      ensures Filled(d0, descs[..], place, all, inputs, at + |bufs|)
      ensures at + |bufs| < |q.free| ==> freeHead == q.free[at + |bufs|]
      ensures at + |bufs| > 0 ==> last == q.free[at + |bufs| - 1]
    {
      last := last0;
      for i := 0 to |bufs|
        invariant Filled(d0, descs[..], place, all, inputs, at + i)
        invariant at + i < |q.free| ==> freeHead == q.free[at + i]
        invariant at + i > 0 ==> last == q.free[at + i - 1]
      {
        last := FillNext(bufs[i], write, at + i, all, inputs, d0);
      }
    }

    method FillNext(buf: Buf, write: bool, ghost k: nat, ghost all: seq<Buf>, ghost inputs: nat, ghost d0: seq<Desc>)
      returns (last: nat)
      requires descs.Length == size == |d0| == |place| && Partition(q, place) && Linked(d0, q.free)
      requires k < |all| <= |q.free| && buf == all[k] && (write <==> k >= inputs)
      requires Filled(d0, descs[..], place, all, inputs, k) && freeHead == q.free[k]
      modifies this`freeHead, descs
      ensures Filled(d0, descs[..], place, all, inputs, k + 1) && last == q.free[k]
      ensures k + 1 < |q.free| ==> freeHead == q.free[k + 1]
    {
      ghost var d := descs[..];
      var x := descs[freeHead];
      forall x | 0 <= x < |place| && place[x] == InFree(k) ensures x == q.free[k] { assert Holds(q, place[x], x); }
      FillOne(d0, d, q.free, place, all, inputs, k);
      descs[freeHead] := Desc(buf, DescFlags(true, write), x.next);
      assert descs[..] == d[q.free[k] := Desc(all[k], DescFlags(true, k >= inputs), d[q.free[k]].next)];
      last := freeHead;
      freeHead := x.next;
    }

    /** `add_buf` and `add_vm`: the request takes the front of the free list, and its head is published. */
    method Add(req: Request) returns (r: AddResult)
      requires Valid()
      modifies this, descs, availRing
      ensures Valid()
      ensures r == InvalidArgs <==> |req.inputs| + |req.outputs| == 0
      ensures r == BufferTooSmall <==> |req.inputs| + |req.outputs| > |old(q).free|
      ensures !r.Token? ==> unchanged(this) && unchanged(descs) && unchanged(availRing)
      ensures r.Token? ==>
                && r.head == old(q).free[0] && q == Added(old(q), req)
                && published == old(published) + [r.head] && usedLog == old(usedLog) && popped == old(popped)
    {
      if req.inputs == [] && req.outputs == [] { return InvalidArgs; }
      if |req.inputs| + |req.outputs| + numUsed > size { return BufferTooSmall; }
      var head := freeHead;
      Chain(req);
      PendingKept(old(q), q, usedLog[popped..]);
      Publish(head);
      return Token(head);
    }

    /** The part of `add` that works on descriptors. */
    method Chain(req: Request)
      requires DescsOk() && 0 < |req.inputs| + |req.outputs| <= |q.free|
      modifies this`freeHead, this`numUsed, this`q, this`place, descs
      ensures DescsOk() && q == Added(old(q), req)
      ensures forall h | h in old(q).chains :: h in q.chains
    {
      ghost var d0, all := descs[..], req.inputs + req.outputs;
      ghost var n := |all|;
      var last := Fill(req.inputs, false, 0, all, |req.inputs|, d0, freeHead);
      last := Fill(req.outputs, true, |req.inputs|, all, |req.inputs|, d0, last);
      ghost var d := descs[..];
      descs[last] := Desc(descs[last].buf, DescFlags(false, descs[last].flags.write), descs[last].next);
      numUsed := numUsed + |req.inputs| + |req.outputs|;
      assert descs[..] == WithoutNext(d, q.free[n - 1]);
      AddKeepsLinks(d0, d, q, place, req, n);
      AddKeepsPartition(q, place, req, n);
      q, place := Added(q, req), AddedPlaces(place, q.free[0], n);
    }

    /** The part of `add` that works on the available ring. */
    method Publish(head: nat)
      requires bits <= 8 && size == Pow2(bits) == availRing.Length && AvailOk()
      modifies this`availIdx, this`availRingIdx, this`published, availRing
      ensures AvailOk() && published == old(published) + [head]
    {
      SlotOfWrapped(|published|, bits, size);
      var slot := And(availIdx, size - 1);
      WrapNext(|published|);
      ghost var ring := availRing[..];
      availRing[slot] := head;
      assert availRing[..] == ring[slot := head];
      RingPush(ring, published, Recent(|published|, size), Recent(|published| + 1, size), bits, head);
      availIdx := Wrap(availIdx + 1);
      availRingIdx := availIdx;
      published := published + [head];
    }

    /** `recycle_descriptors`: the chain goes in front of the free list, and the links survive exactly when that is
        safe. If the overwritten slot is inside the chain, the loop decrements `num_used` below zero, and it panics. */
    method Recycle(head: nat) returns (ok: bool)
      requires DescsOk() && head in q.chains && head < size
      modifies this`freeHead, this`numUsed, this`q, this`place, descs
      ensures ok <==> !OwnInterior(old(q), old(place), head)
      ensures ok ==> q == Recycled(old(q), head) && numUsed + |q.free| == size
      ensures ok ==> (DescsOk() <==> Safe(old(q), old(place), head))
    {
      ghost var c, own := q.chains[head].descs, OwnInterior(q, place, head);
      if own { WalkGoesOn(descs[..], q, place, head); } else { RecycleWorks(descs[..], q, place, head, freeHead); }
      ok := Relink(head, c, own);
      if ok { q, place := Recycled(q, head), RecycledPlaces(place, head, |c|); }
    }

    /** What `recycle_descriptors` writes. */
    method Relink(head: nat, ghost c: seq<nat>, ghost own: bool) returns (ok: bool)
      requires head < size == descs.Length
      requires own ==> Endless(WithNext(descs[..], Prev(head, size), head), head)
      requires !own ==> Ends(WithNext(descs[..], Prev(head, size), head), head, c) && |c| <= numUsed
      modifies this`freeHead, this`numUsed, descs
      ensures ok <==> !own
      ensures ok ==> freeHead == head && numUsed == old(numUsed) - |c|
      ensures ok ==> descs[..] == RecycledDescs(old(descs[..]), head, c[|c| - 1], old(freeHead))
    {
      var originFreeHead := freeHead;
      freeHead := head;
      var prev := if head == 0 then size - 1 else head - 1;
      descs[prev] := Desc(descs[prev].buf, descs[prev].flags, head);
      assert descs[..] == WithNext(old(descs[..]), Prev(head, size), head);
      var last := CountDown(head, c, own);
      if last.None? { return false; }
      descs[last.value] := Desc(descs[last.value].buf, descs[last.value].flags, originFreeHead);
      return true;
    }

    /** The loop of `recycle_descriptors`, which ends at the chain's last descriptor; `None` is the panic on overflow
        of `num_used`. */
    method CountDown(head: nat, ghost c: seq<nat>, ghost own: bool) returns (last: Option<nat>)
      requires if own then Endless(descs[..], head) else Ends(descs[..], head, c) && |c| <= numUsed
      modifies this`numUsed
      ensures last == if own then None else Some(c[|c| - 1])
      ensures !own ==> numUsed == old(numUsed) - |c|
    {
      var x := head;
      ghost var i := 0;
      while true
        invariant if own then x == Nth(descs[..], head, i) else i < |c| && x == c[i]
        invariant numUsed == old(numUsed) - i
        decreases numUsed
      {
        assert own ==> GoesOnAt(descs[..], head, i);
        if numUsed == 0 { return None; }
        numUsed := numUsed - 1;
        if !descs[x].flags.next { return Some(x); }
        assert !own ==> descs[..][c[i]].next == c[i + 1];
        x := descs[x].next;
        i := i + 1;
      }
    }

    /** The used element that is next to be popped, if there is one. */
    method NextUsed() returns (r: Option<UsedElem>)
      requires bits <= 8 && size == Pow2(bits) == usedRing.Length && UsedOk()
      ensures r == if popped < |usedLog| then Some(usedLog[popped]) else None
    {
      WrapTells(popped, |usedLog|, bits);
      if lastUsedIdx == usedRingIdx { return None; }
      SlotOfWrapped(popped, bits, size);
      RingPop(usedRing[..], usedLog, popped, bits);
      return Some(usedRing[And(lastUsedIdx, size - 1)]);
    }

    /** Recycles the next used element; false is the panic of `recycle_descriptors`. */
    method FinishPop(e: UsedElem) returns (ok: bool)
      requires Valid() && popped < |usedLog| && e == usedLog[popped] && e.id < size
      modifies this`freeHead, this`numUsed, this`q, this`place, this`lastUsedIdx, this`popped, descs
      ensures ok <==> !OwnInterior(old(q), old(place), e.id)
      ensures ok ==> e.id in old(q).chains && q == Recycled(old(q), e.id) && popped == old(popped) + 1
      ensures ok ==> (Valid() <==> Safe(old(q), old(place), e.id))
    {
      PendingRest(q, usedLog, popped);
      ok := Recycle(e.id);
      if ok {
        assert AvailOk();
        AdvanceUsed();
      }
    }

    /** The driver has read one more used element. */
    method AdvanceUsed()
      requires popped < |usedLog| && lastUsedIdx == Wrap(popped) && usedRingIdx == Wrap(|usedLog|)
      requires RingOk(usedRing[..], usedLog, popped, bits) && PendingOk(q, usedLog[popped + 1..])
      modifies this`lastUsedIdx, this`popped
      ensures UsedOk() && popped == old(popped) + 1
    {
      WrapNext(popped);
      lastUsedIdx := Wrap(lastUsedIdx + 1);
      popped := popped + 1;
    }

    /** The next used element has the slot before its head inside its own chain. */
    ghost predicate NextIsOwnInterior()
      requires Valid()
      reads this, descs, availRing, usedRing
    {
      popped < |usedLog| && usedLog[popped].id < size && OwnInterior(q, place, usedLog[popped].id)
    }

    /** `pop_used`: used elements come back in the order the device used them. */
    method PopUsed() returns (r: PopResult)
      requires Valid()
      modifies this, descs
      ensures r == NotReady <==> old(popped) == |old(usedLog)|
      ensures r == NotReady ==> Valid() && unchanged(this) && unchanged(descs)
      ensures r == Panicked <==> old(NextIsOwnInterior())
      ensures r != WrongToken
      ensures r.Popped? ==>
                && r == (var e := old(usedLog)[old(popped)]; Popped(e.id, e.len))
                && q == Recycled(old(q), r.id) && popped == old(popped) + 1
                && usedLog == old(usedLog) && published == old(published)
                && (Valid() <==> Safe(old(q), old(place), r.id))
    {
      var e := NextUsed();
      if e.None? { return NotReady; }
      NextIsInside();
      var ok := FinishPop(e.value);
      return if ok then Popped(e.value.id, e.value.len) else Panicked;
    }

    /** `pop_used_with_token`: the same for a given head, which must be the next one. */
    method PopUsedWithToken(token: nat) returns (r: PopResult)
      requires Valid()
      modifies this, descs
      ensures r == NotReady <==> old(popped) == |old(usedLog)|
      ensures r == WrongToken <==> old(popped) < |old(usedLog)| && old(usedLog)[old(popped)].id != token
      ensures r == NotReady || r == WrongToken ==> Valid() && unchanged(this) && unchanged(descs)
      ensures r == Panicked <==> old(NextIsOwnInterior()) && old(usedLog)[old(popped)].id == token
      ensures r.Popped? ==>
                && r == Popped(token, old(usedLog)[old(popped)].len)
                && q == Recycled(old(q), token) && popped == old(popped) + 1
                && usedLog == old(usedLog) && published == old(published)
                && (Valid() <==> Safe(old(q), old(place), token))
    {
      var e := NextUsed();
      if e.None? { return NotReady; }
      if e.value.id != token { return WrongToken; }
      NextIsInside();
      var ok := FinishPop(e.value);
      return if ok then Popped(token, e.value.len) else Panicked;
    }

    lemma NextIsInside()
      requires Valid() && popped < |usedLog|
      ensures usedLog[popped].id < size && usedLog[popped].id in q.chains
    {
      var id := usedLog[popped].id;
      assert usedLog[popped..][0].id in q.chains;
      assert ChainPlaced(id, q.chains[id].descs, place);
    }

    /** `available_desc`: the number of free descriptors. */
    method AvailableDesc() returns (n: nat)
      requires Valid()
      ensures n == |q.free|
    {
      return size - numUsed;
    }

    /** `can_pop`. */
    method CanPop() returns (r: bool)
      requires Valid()
      ensures r <==> popped < |usedLog|
    {
      WrapTells(popped, |usedLog|, bits);
      return lastUsedIdx != usedRingIdx;
    }

    /** A step of the device: it puts a chain that is in flight, and that it has not used before, on the used ring. */
    method DeviceUses(head: nat, len: nat)
      requires Valid() && head in q.chains && forall i | popped <= i < |usedLog| :: usedLog[i].id != head
      modifies this`usedRingIdx, this`usedLog, usedRing
      ensures Valid() && usedLog == old(usedLog) + [UsedElem(head, len)]
    {
      ghost var pending := usedLog[popped..] + [UsedElem(head, len)];
      PendingBound(q, place, pending);
      assert pending == (usedLog + [UsedElem(head, len)])[popped..];
      PushUsed(UsedElem(head, len));
    }

    method PushUsed(e: UsedElem)
      requires bits <= 8 && size == Pow2(bits) == usedRing.Length
      requires popped <= |usedLog| < popped + size && usedRingIdx == Wrap(|usedLog|)
      requires RingOk(usedRing[..], usedLog, popped, bits)
      modifies this`usedRingIdx, this`usedLog, usedRing
      ensures usedLog == old(usedLog) + [e] && usedRingIdx == Wrap(|usedLog|)
      ensures RingOk(usedRing[..], usedLog, popped, bits)
    {
      SlotOfWrapped(|usedLog|, bits, size);
      var slot := And(usedRingIdx, size - 1);
      WrapNext(|usedLog|);
      ghost var ring := usedRing[..];
      usedRing[slot] := e;
      assert usedRing[..] == ring[slot := e];
      RingPush(ring, usedLog, popped, popped, bits, e);
      usedRingIdx := Wrap(usedRingIdx + 1);
      usedLog := usedLog + [e];
    }
  }

  /** A driver with one request in flight at a time, and a device that answers each: every pop is safe, gives back the
      request's own head with the device's length, and leaves the queue as it was when new. */
  method Transact(queue: VirtQueue, req: Request, len: nat) returns (head: nat, r: PopResult)
    requires queue.Valid() && queue.q == AllFree(queue.size) && queue.popped == |queue.usedLog|
    requires 0 < |req.inputs| + |req.outputs| <= queue.size
    modifies queue, queue.descs, queue.availRing, queue.usedRing
    ensures r == Popped(head, len) && queue.Valid() && queue.q == AllFree(queue.size) && queue.popped == |queue.usedLog|
    ensures queue.published == old(queue.published) + [head]
    ensures queue.usedLog == old(queue.usedLog) + [UsedElem(head, len)]
  {
    var added := queue.Add(req);
    head := added.head;
    OneInFlight(queue.size, req, queue.place);
    r := Answer(queue, head, len);
  }

  /** The same over any number of requests: every pop of the run gives back its own request. */
  method TransactAll(queue: VirtQueue, reqs: seq<Request>, lens: seq<nat>) returns (heads: seq<nat>, rs: seq<PopResult>)
    requires queue.Valid() && queue.q == AllFree(queue.size) && queue.popped == |queue.usedLog| && |lens| == |reqs|
    requires forall i | 0 <= i < |reqs| :: 0 < |reqs[i].inputs| + |reqs[i].outputs| <= queue.size
    modifies queue, queue.descs, queue.availRing, queue.usedRing
    ensures queue.Valid() && queue.q == AllFree(queue.size) && queue.popped == |queue.usedLog|
    ensures |heads| == |rs| == |reqs| && forall i | 0 <= i < |rs| :: rs[i] == Popped(heads[i], lens[i])
    ensures queue.published == old(queue.published) + heads
  {
    heads, rs := [], [];
    for i := 0 to |reqs|
      invariant queue.Valid() && queue.q == AllFree(queue.size) && queue.popped == |queue.usedLog|
      invariant |heads| == |rs| == i && forall k | 0 <= k < i :: rs[k] == Popped(heads[k], lens[k])
      invariant queue.published == old(queue.published) + heads
    {
      var head, r := Transact(queue, reqs[i], lens[i]);
      heads, rs := heads + [head], rs + [r];
    }
  }

  /** The device answers a request, and the driver pops the answer. */
  method Answer(queue: VirtQueue, head: nat, len: nat) returns (r: PopResult)
    requires queue.Valid() && queue.popped == |queue.usedLog| && head in queue.q.chains
    requires head < |queue.place| && Safe(queue.q, queue.place, head)
    modifies queue, queue.descs, queue.usedRing
    ensures r == Popped(head, len) && queue.Valid() && queue.q == Recycled(old(queue.q), head)
    ensures queue.popped == |queue.usedLog|
    ensures queue.published == old(queue.published) && queue.usedLog == old(queue.usedLog) + [UsedElem(head, len)]
  {
    queue.DeviceUses(head, len);
    SafeEnds(queue.q, queue.place, head);
    r := queue.PopUsed();
  }

  lemma SafeEnds(q: Queue, place: seq<Place>, head: nat)
    requires head < |place| && Safe(q, place, head)
    ensures !OwnInterior(q, place, head)
  {
  }

  /** `VirtQueue::new`: the size must be a power of two, at most 128 for a legacy device and 256 for another. */
  method NewQueue(size: nat, legacy: bool) returns (r: Option<VirtQueue>)
    ensures r.Some? <==> (exists k: nat :: size == Pow2(k)) && size <= if legacy then 128 else 256
    ensures r.Some? ==> fresh(r.value) && r.value.Valid() && r.value.size == size && r.value.q == AllFree(size)
  {
    PowerOfTwoTest(size);
    if !IsPowerOfTwo(size) || size > (if legacy then 128 else 256) { return None; }
    ghost var bits: nat :| size == Pow2(bits);
    if bits > 8 { Pow2Monotone(8, bits); }
    var queue := new VirtQueue(size, bits);
    return Some(queue);
  }

  /** All that recycling a chain does, if the overwritten slot is not inside it. */
  lemma RecycleWorks(d: seq<Desc>, q: Queue, place: seq<Place>, head: nat, freeHead: nat)
    requires Partition(q, place) && LinksOk(d, q) && |d| == |place| && head in q.chains
    requires q.free != [] ==> freeHead == q.free[0]
    requires head < |place| && !OwnInterior(q, place, head)
    ensures var c := q.chains[head].descs;
            && |c| + |q.free| <= |place| && Ends(WithNext(d, Prev(head, |d|), head), head, c)
            && Partition(Recycled(q, head), RecycledPlaces(place, head, |c|)) && c[|c| - 1] < |d|
            && (LinksOk(RecycledDescs(d, head, c[|c| - 1], freeHead), Recycled(q, head)) <==> Safe(q, place, head))
  {
    ChainBound(q, place, head);
    OwnLinks(d, q, place, head, WithNext(d, Prev(head, |d|), head));
    RecycleIff(d, q, place, head, freeHead);
    RecycleKeepsPartition(q, place, head, |q.chains[head].descs|);
  }

  /** The extra write does not disturb the chain being recycled, unless its slot is inside it. */
  lemma OwnLinks(d: seq<Desc>, q: Queue, place: seq<Place>, head: nat, d1: seq<Desc>)
    requires Partition(q, place) && LinksOk(d, q) && |d| == |place| && head in q.chains && head < |place|
    requires !OwnInterior(q, place, head) && d1 == WithNext(d, Prev(head, |d|), head)
    ensures Ends(d1, head, q.chains[head].descs)
  {
    var c := q.chains[head].descs;
    assert ChainOk(d, head, q.chains[head]) && ChainPlaced(head, c, place);
  }

  lemma PendingKept(q: Queue, q': Queue, pending: seq<UsedElem>)
    requires PendingOk(q, pending) && forall h | h in q.chains :: h in q'.chains
    ensures PendingOk(q', pending)
  {
  }

  lemma PendingRest(q: Queue, log: seq<UsedElem>, from: nat)
    requires from < |log| && PendingOk(q, log[from..])
    ensures log[from].id in q.chains && PendingOk(Recycled(q, log[from].id), log[from + 1..])
  {
    var pending, rest := log[from..], log[from + 1..];
    assert pending[0] == log[from] && rest == pending[1..];
    forall i | 0 <= i < |rest| ensures rest[i].id in q.chains - {log[from].id} { assert IdsDiffer(pending, 0, i + 1); }
    forall i, j | 0 <= i < j < |rest| ensures IdsDiffer(rest, i, j) { assert IdsDiffer(pending, i + 1, j + 1); }
  }

  /** There are no more used chains than descriptors. */
  lemma PendingBound(q: Queue, place: seq<Place>, pending: seq<UsedElem>)
    requires Partition(q, place) && pending != []
    requires PendingOk(q, pending[..|pending| - 1]) && pending[|pending| - 1].id in q.chains
    requires forall i | 0 <= i < |pending| - 1 :: pending[i].id != pending[|pending| - 1].id
    ensures PendingOk(q, pending) && |pending| <= |place|
  {
    var n := |pending| - 1;
    var ids: seq<nat> := seq(|pending|, i requires 0 <= i < |pending| => pending[i].id);
    forall i | 0 <= i <= n ensures pending[i].id in q.chains { assert i < n ==> pending[..n][i].id in q.chains; }
    forall i, j | 0 <= i < j < |pending| ensures IdsDiffer(pending, i, j) && Differ(ids, i, j) {
      if j < n { assert IdsDiffer(pending[..n], i, j); }
    }
    forall i | 0 <= i < |ids| ensures ids[i] < |place| { assert ChainPlaced(ids[i], q.chains[ids[i]].descs, place); }
    DistinctBound(ids, |place|);
  }

  lemma FillOne(d0: seq<Desc>, d: seq<Desc>, free: seq<nat>, place: seq<Place>, all: seq<Buf>, inputs: nat, i: nat)
    requires Filled(d0, d, place, all, inputs, i) && i < |all| <= |free| && FreePlaced(free, place) && Linked(d0, free)
    requires forall x | 0 <= x < |place| && place[x] == InFree(i) :: x == free[i]
    ensures d[free[i]].next == d0[free[i]].next
    ensures var x := Desc(all[i], DescFlags(true, i >= inputs), d[free[i]].next);
            Filled(d0, d[free[i] := x], place, all, inputs, i + 1)
  {
    assert place[free[i]] == InFree(i);
  }

  ghost predicate PendingOk(q: Queue, pending: seq<UsedElem>) {
    && (forall i | 0 <= i < |pending| :: pending[i].id in q.chains)
    && (forall i, j {:trigger IdsDiffer(pending, i, j)} | 0 <= i < j < |pending| :: IdsDiffer(pending, i, j))
  }

  predicate IdsDiffer(s: seq<UsedElem>, i: nat, j: nat)
    requires i < |s| && j < |s|
  {
    s[i].id != s[j].id
  }
}
