/** `AtomicBits`: a row of bits in 64-bit words, and the iterators that scan it word by word. */
module AtomicBitRows {
  import opened Bits
  import opened AlignExt
  import opened Options

  /** The bit at a position of the row. */
  predicate BitAt(words: seq<nat>, p: nat)
    requires p / 64 < |words|
  {
    Bit(words[p / 64], p % 64)
  }

  /** The row of bits that the words stand for. */
  ghost function RowOf(words: seq<nat>, numBits: nat): (row: seq<bool>)
    requires numBits <= |words| * 64
    ensures |row| == numBits
  {
    seq(numBits, p requires 0 <= p < numBits => BitAt(words, p))
  }

  /** No position in the range has the value. */
  ghost predicate NoneIn(row: seq<bool>, value: bool, from: nat, to: nat) {
    to <= |row| && forall p | from <= p < to :: row[p] != value
  }

  function Min(a: nat, b: nat): nat { if a < b then a else b }

  /** The first bit from `k` on with the given value, or `width`. */
  function First(x: nat, value: bool, k: nat, width: nat): (r: nat)
    requires k <= width
    ensures k <= r <= width
    decreases width - k
  {
    if k == width || Bit(x, k) == value then k else First(x, value, k + 1, width)
  }

  lemma {:induction false} FirstIs(x: nat, value: bool, k: nat, width: nat)
    requires k <= width
    ensures var r := First(x, value, k, width);
            (r < width ==> Bit(x, r) == value) && forall j | k <= j < r :: Bit(x, j) != value
    decreases width - k
  {
    if k < width && Bit(x, k) != value { FirstIs(x, value, k + 1, width); }
  }

  /** `align_up(64) / 64`. */
  method WordCount(numBits: nat, width: nat, ghost w: nat) returns (n: nat)
    requires w == Pow2(width) && 64 < w && numBits + 63 < w
    ensures numBits <= n * 64 < numBits + 64
  {
    ghost var q := AlignUpIsLeast(numBits, 64, width, w);
    SixtyFour();
    var r := AlignUp(numBits, 64, width).value;
    assert r == 64 * q;
    return r / 64;
  }

  lemma SixtyFour()
    ensures exists k: nat :: 64 == Pow2(k)
  {
    assert Pow2(6) == 64;
  }

  class AtomicBits {
    /** The number of bits in a word. */
    const width: nat
    const numBits: nat
    const words: array<nat>

    ghost predicate Valid()
      reads words
    {
      && width == 64 && numBits <= words.Length * 64 < numBits + 64
      && forall i | 0 <= i < words.Length :: words[i] < Pow2(width)
    }

    ghost function Row(): (row: seq<bool>)
      requires Valid()
      reads words
      ensures |row| == numBits
    {
      RowOf(words[..], numBits)
    }

    /** `new`: all words are zeros or all are ones. */
    constructor (ones: bool, numBits: nat, width: nat, ghost w: nat)
      requires width == 64 && w == Pow2(width) && 64 < w && numBits + 63 < w
      ensures Valid() && fresh(words) && this.numBits == numBits
      ensures NoneIn(Row(), !ones, 0, numBits)
    {
      var n := WordCount(numBits, width, w);
      var val := if ones then Not(0, width) else 0;
      this.width, this.numBits := width, numBits;
      words := new nat[n](_ => val);
      new;
      FilledRow(words[..], numBits, val, ones, width);
    }

    method Get(index: nat) returns (bit: bool)
      requires Valid() && index < numBits
      ensures bit == Row()[index]
    {
      var i, j := index / 64, index % 64;
      AndSingle(words[i], j, Pow2(j));
      return And(words[i], Pow2(j)) != 0;
    }

    method Set(index: nat, bit: bool)
      requires Valid() && index < numBits
      modifies words
      ensures Valid()
      ensures Row() == old(Row())[index := bit]
    {
      var i, j := index / 64, index % 64;
      var x := words[i];
      Pow2Monotone(j, width);
      words[i] := if bit then Or(x, Pow2(j)) else And(x, Not(Pow2(j), width));
      ChangedBelow(x, words[i], bit, j, width);
      ChangedRow(old(words[..]), words[..], index, bit, numBits, width);
    }
  }

  lemma {:induction false} FilledRow(words: seq<nat>, numBits: nat, val: nat, ones: bool, width: nat)
    requires numBits <= |words| * 64 && width == 64 && val == (if ones then Not(0, width) else 0)
    requires forall i | 0 <= i < |words| :: words[i] == val
    ensures NoneIn(RowOf(words, numBits), !ones, 0, numBits)
  {
    forall p | 0 <= p < numBits ensures RowOf(words, numBits)[p] == ones {
      BitOfZero(p % 64);
      if ones { BitOfNot(0, width, p % 64); }
    }
  }

  lemma {:induction false} ChangedRow(words: seq<nat>, words': seq<nat>, index: nat, bit: bool, numBits: nat,
                                      width: nat)
    requires numBits <= |words| * 64 && index < numBits && width == 64 && Pow2(index % 64) < Pow2(width)
    requires words' == words[index / 64 := if bit then Or(words[index / 64], Pow2(index % 64))
                                           else And(words[index / 64], Not(Pow2(index % 64), width))]
    ensures RowOf(words', numBits) == RowOf(words, numBits)[index := bit]
  {
    var i, j := index / 64, index % 64;
    forall p | 0 <= p < numBits ensures RowOf(words', numBits)[p] == RowOf(words, numBits)[index := bit][p] {
      if p / 64 == i {
        BitChanged(words[i], words'[i], bit, j, p % 64, width);
        assert p == index <==> p % 64 == j;
      }
    }
  }

  lemma {:induction false} ChangedBelow(x: nat, y: nat, bit: bool, j: nat, width: nat)
    requires x < Pow2(width) && Pow2(j) < Pow2(width)
    requires y == if bit then Or(x, Pow2(j)) else And(x, Not(Pow2(j), width))
    ensures y < Pow2(width)
  {
    if bit { OrBelow(x, Pow2(j), width); } else { AndBelow(x, Not(Pow2(j), width)); }
  }

  /** Setting or clearing bit `j` of a word. */
  lemma {:induction false} BitChanged(x: nat, y: nat, bit: bool, j: nat, k: nat, width: nat)
    requires j < width && k < width && Pow2(j) < Pow2(width)
    requires y == if bit then Or(x, Pow2(j)) else And(x, Not(Pow2(j), width))
    ensures Bit(y, k) <==> if k == j then bit else Bit(x, k)
  {
    BitOfPow2(j, k);
    if bit {
      BitOfOr(x, Pow2(j), k);
    } else {
      BitOfAnd(x, Not(Pow2(j), width), k);
      BitOfNot(Pow2(j), width, k);
    }
  }

  // ---- Scanning a word ----

  /** `word` has the value exactly at those places of `orig` that have it and are still to come. The word starts at
      `base`. */
  ghost predicate Left(word: nat, orig: nat, value: bool, base: nat, pos: nat, numBits: nat) {
    forall j | 0 <= j < 64 :: Bit(word, j) == value <==> pos <= base + j < numBits && Bit(orig, j) == value
  }

  /** Taking the first place with the value leaves those after it. */
  lemma {:induction false} LeftAfter(word: nat, word': nat, orig: nat, value: bool, base: nat, pos: nat, numBits: nat,
                                     k: nat, width: nat)
    requires Left(word, orig, value, base, pos, numBits) && width == 64
    requires k == First(word, value, 0, width) < width && Pow2(k) < Pow2(width)
    requires word' == if !value then Or(word, Pow2(k)) else And(word, Not(Pow2(k), width))
    ensures Left(word', orig, value, base, base + k + 1, numBits)
    ensures pos <= base + k < numBits && Bit(orig, k) == value
  {
    FirstIs(word, value, 0, width);
    forall j | 0 <= j < 64
      ensures Bit(word', j) == value <==> base + k + 1 <= base + j < numBits && Bit(orig, j) == value
    {
      BitChanged(word, word', !value, k, j, width);
    }
  }

  /** What lies before the first place with the value in a word. */
  lemma {:induction false} NoneBefore(words: seq<nat>, word: nat, value: bool, idx: nat, pos: nat, numBits: nat,
                                      width: nat, to: nat)
    requires idx < |words| && numBits <= |words| * 64 && Left(word, words[idx], value, idx * 64, pos, numBits)
    requires width == 64
    requires idx * 64 <= pos && to <= numBits && to <= idx * 64 + First(word, value, 0, width)
    ensures NoneIn(RowOf(words, numBits), value, pos, to)
  {
    FirstIs(word, value, 0, width);
    forall p | pos <= p < to ensures RowOf(words, numBits)[p] != value {
      assert p / 64 == idx && p % 64 == p - idx * 64;
      assert Bit(word, p - idx * 64) != value;
    }
  }

  /** Masking with `v` ones keeps the `v` low bits. */
  lemma {:induction false} MaskedOnes(x: nat, mask: nat, v: nat, base: nat, numBits: nat)
    requires mask == Pow2(v) - 1 && numBits == base + v && v <= 64
    ensures And(x, mask) <= x && Left(And(x, mask), x, true, base, base, numBits)
  {
    AndBelow(x, mask);
    forall j | 0 <= j < 64 ensures Bit(And(x, mask), j) == true <==> base <= base + j < numBits && Bit(x, j) == true {
      BitOfAnd(x, mask, j);
      BitOfMask(v, j);
    }
  }

  /** Setting all but the `v` low bits keeps the zeros among those. */
  lemma {:induction false} MaskedZeroes(x: nat, low: nat, v: nat, width: nat, base: nat, numBits: nat)
    requires low == Pow2(v) - 1 && numBits == base + v && v < 64 == width && x < Pow2(width) && low < Pow2(width)
    ensures Or(x, Not(low, width)) < Pow2(width) && Left(Or(x, Not(low, width)), x, false, base, base, numBits)
  {
    var mask := Not(low, width);
    OrBelow(x, mask, width);
    forall j | 0 <= j < 64 ensures Bit(Or(x, mask), j) == false <==> base <= base + j < numBits && Bit(x, j) == false {
      BitOfOr(x, mask, j);
      BitOfNot(low, width, j);
      BitOfMask(v, j);
    }
  }

  function GarbageBits(numBits: nat): nat { if numBits % 64 != 0 then 64 - numBits % 64 else 0 }

  /** What both iterators keep: `word` has what is left of the current word. */
  ghost predicate ScanOk(words: seq<nat>, value: bool, idx: nat, word: nat, pos: nat, numBits: nat, width: nat) {
    && idx <= |words| && idx * 64 <= pos && (idx == |words| ==> pos >= numBits)
    && (idx < |words| ==>
          pos <= idx * 64 + 64 && word < Pow2(width) && Left(word, words[idx], value, idx * 64, pos, numBits))
  }

  lemma {:induction false} BitBelow(k: nat, width: nat)
    requires k < width
    ensures Pow2(k) < Pow2(width)
  {
    Pow2Monotone(k, width);
  }

  lemma {:induction false} ScanTake(words: seq<nat>, value: bool, idx: nat, word: nat, word': nat, pos: nat,
                                    numBits: nat, width: nat, k: nat)
    requires ScanOk(words, value, idx, word, pos, numBits, width) && idx < |words| && width == 64
    requires k == First(word, value, 0, width) < width && Pow2(k) < Pow2(width)
    requires word' == if !value then Or(word, Pow2(k)) else And(word, Not(Pow2(k), width))
    ensures ScanOk(words, value, idx, word', idx * 64 + k + 1, numBits, width)
  {
    ChangedBelow(word, word', !value, k, width);
    LeftAfter(word, word', words[idx], value, idx * 64, pos, numBits, k, width);
  }

  /** The first place that is left is the next one with the value. */
  lemma {:induction false} FirstOfScan(words: seq<nat>, value: bool, idx: nat, word: nat, pos: nat, numBits: nat,
                                       width: nat, k: nat)
    requires ScanOk(words, value, idx, word, pos, numBits, width) && idx < |words| && width == 64
    requires numBits <= |words| * 64
    requires k == First(word, value, 0, width) < width
    ensures pos <= idx * 64 + k < numBits && RowOf(words, numBits)[idx * 64 + k] == value
    ensures NoneIn(RowOf(words, numBits), value, pos, idx * 64 + k)
  {
    FirstIs(word, value, 0, width);
    RowAt(words, numBits, idx, k);
    NoneBefore(words, word, value, idx, pos, numBits, width, idx * 64 + k);
  }

  lemma {:induction false} RowAt(words: seq<nat>, numBits: nat, idx: nat, k: nat)
    requires idx < |words| && k < 64 && idx * 64 + k < numBits <= |words| * 64
    ensures RowOf(words, numBits)[idx * 64 + k] == Bit(words[idx], k)
  {
    assert (idx * 64 + k) / 64 == idx && (idx * 64 + k) % 64 == k;
  }

  // ---- The iterators ----

  class OnesIter {
    const bits: AtomicBits
    const garbage: nat
    var wordIdx: nat
    var word: nat
    /** Every position below this one has been dealt with. */
    ghost var pos: nat

    ghost predicate Valid()
      reads this, bits.words
    {
      && bits.Valid() && garbage == GarbageBits(bits.numBits)
      && ScanOk(bits.words[..], true, wordIdx, word, pos, bits.numBits, bits.width)
    }

    constructor (bits: AtomicBits)
      requires bits.Valid() && bits.numBits > 0
      ensures Valid() && this.bits == bits && pos == 0
    {
      this.bits, garbage := bits, GarbageBits(bits.numBits);
      wordIdx, word, pos := 0, 0, 0;
      new;
      word := WordAt(0);
    }

    /** `get_u64_val`: the word without the garbage bits of the last word. */
    method WordAt(idx: nat) returns (val: nat)
      requires bits.Valid() && garbage == GarbageBits(bits.numBits) && idx < bits.words.Length
      ensures val < Pow2(bits.width) && Left(val, bits.words[idx], true, idx * 64, idx * 64, bits.numBits)
    {
      val := bits.words[idx];
      if idx == bits.words.Length - 1 && garbage > 0 {
        var mask := Pow2(64 - garbage) - 1;
        MaskedOnes(val, mask, 64 - garbage, idx * 64, bits.numBits);
        val := And(val, mask);
      }
    }

    /** `next`: the next one after those already given, or none if there are no more. */
    method Next() returns (r: Option<nat>)
      requires Valid()
      modifies this
      ensures Valid()
      ensures r.Some? ==> old(pos) <= r.value < bits.numBits && bits.Row()[r.value] && pos == r.value + 1
      ensures NoneIn(bits.Row(), true, old(pos), if r.Some? then r.value else bits.numBits)
    {
      ghost var row := bits.Row();
      while wordIdx < bits.words.Length
        invariant Valid() && old(pos) <= pos
        invariant NoneIn(row, true, old(pos), Min(pos, bits.numBits))
        decreases bits.words.Length - wordIdx
      {
        var k := First(word, true, 0, bits.width);
        if k < 64 {
          r := Take(k);
          return;
        }
        Skip();
      }
      return None;
    }

    method Take(k: nat) returns (r: Option<nat>)
      requires Valid() && wordIdx < bits.words.Length && k == First(word, true, 0, bits.width) < 64
      modifies this`word, this`pos
      ensures Valid() && r == Some(wordIdx * 64 + k) && pos == wordIdx * 64 + k + 1
      ensures old(pos) <= r.value < bits.numBits && bits.Row()[r.value]
      ensures NoneIn(bits.Row(), true, old(pos), r.value)
    {
      BitBelow(k, bits.width);
      FirstOfScan(bits.words[..], true, wordIdx, word, pos, bits.numBits, bits.width, k);
      ghost var before := word;
      word := And(word, Not(Pow2(k), bits.width));
      ScanTake(bits.words[..], true, wordIdx, before, word, pos, bits.numBits, bits.width, k);
      pos := wordIdx * 64 + k + 1;
      return Some(wordIdx * 64 + k);
    }

    method Skip()
      requires Valid() && wordIdx < bits.words.Length && First(word, true, 0, bits.width) == 64
      modifies this
      ensures Valid() && wordIdx == old(wordIdx) + 1 && pos == wordIdx * 64 >= old(pos)
      ensures NoneIn(bits.Row(), true, Min(old(pos), bits.numBits), Min(pos, bits.numBits))
    {
      if pos < bits.numBits {
        NoneBefore(bits.words[..], word, true, wordIdx, pos, bits.numBits, bits.width,
                   Min(wordIdx * 64 + 64, bits.numBits));
      }
      wordIdx := wordIdx + 1;
      pos := wordIdx * 64;
      if wordIdx < bits.words.Length { word := WordAt(wordIdx); }
    }
  }

  class ZeroesIter {
    const bits: AtomicBits
    const garbage: nat
    var wordIdx: nat
    var word: nat
    /** Every position below this one has been dealt with. */
    ghost var pos: nat

    ghost predicate Valid()
      reads this, bits.words
    {
      && bits.Valid() && garbage == GarbageBits(bits.numBits)
      && ScanOk(bits.words[..], false, wordIdx, word, pos, bits.numBits, bits.width)
    }

    constructor (bits: AtomicBits)
      requires bits.Valid() && bits.numBits > 0
      ensures Valid() && this.bits == bits && pos == 0
    {
      this.bits, garbage := bits, GarbageBits(bits.numBits);
      wordIdx, word, pos := 0, 0, 0;
      new;
      word := WordAt(0);
    }

    /** `get_u64_val`: the word with the garbage bits of the last word set. */
    method WordAt(idx: nat) returns (val: nat)
      requires bits.Valid() && garbage == GarbageBits(bits.numBits) && idx < bits.words.Length
      ensures val < Pow2(bits.width) && Left(val, bits.words[idx], false, idx * 64, idx * 64, bits.numBits)
    {
      val := bits.words[idx];
      if idx == bits.words.Length - 1 && garbage > 0 {
        BitBelow(64 - garbage, bits.width);
        var low := Pow2(64 - garbage) - 1;
        MaskedZeroes(val, low, 64 - garbage, bits.width, idx * 64, bits.numBits);
        val := Or(val, Not(low, bits.width));
      }
    }

    /** `next`: the next zero after those already given, or none if there are no more. */
    method Next() returns (r: Option<nat>)
      requires Valid()
      modifies this
      ensures Valid()
      ensures r.Some? ==> old(pos) <= r.value < bits.numBits && !bits.Row()[r.value] && pos == r.value + 1
      ensures NoneIn(bits.Row(), false, old(pos), if r.Some? then r.value else bits.numBits)
    {
      ghost var row := bits.Row();
      while wordIdx < bits.words.Length
        invariant Valid() && old(pos) <= pos
        invariant NoneIn(row, false, old(pos), Min(pos, bits.numBits))
        decreases bits.words.Length - wordIdx
      {
        var k := First(word, false, 0, bits.width);
        if k < 64 {
          r := Take(k);
          return;
        }
        Skip();
      }
      return None;
    }

    method Take(k: nat) returns (r: Option<nat>)
      requires Valid() && wordIdx < bits.words.Length && k == First(word, false, 0, bits.width) < 64
      modifies this`word, this`pos
      ensures Valid() && r == Some(wordIdx * 64 + k) && pos == wordIdx * 64 + k + 1
      ensures old(pos) <= r.value < bits.numBits && !bits.Row()[r.value]
      ensures NoneIn(bits.Row(), false, old(pos), r.value)
    {
      BitBelow(k, bits.width);
      FirstOfScan(bits.words[..], false, wordIdx, word, pos, bits.numBits, bits.width, k);
      ghost var before := word;
      word := Or(word, Pow2(k));
      ScanTake(bits.words[..], false, wordIdx, before, word, pos, bits.numBits, bits.width, k);
      pos := wordIdx * 64 + k + 1;
      return Some(wordIdx * 64 + k);
    }

    method Skip()
      requires Valid() && wordIdx < bits.words.Length && First(word, false, 0, bits.width) == 64
      modifies this
      ensures Valid() && wordIdx == old(wordIdx) + 1 && pos == wordIdx * 64 >= old(pos)
      ensures NoneIn(bits.Row(), false, Min(old(pos), bits.numBits), Min(pos, bits.numBits))
    {
      if pos < bits.numBits {
        NoneBefore(bits.words[..], word, false, wordIdx, pos, bits.numBits, bits.width,
                   Min(wordIdx * 64 + 64, bits.numBits));
      }
      wordIdx := wordIdx + 1;
      pos := wordIdx * 64;
      if wordIdx < bits.words.Length { word := WordAt(wordIdx); }
    }
  }

  // ---- Whole iterations ----

  /** The positions with the value from `from` on, in order. */
  function Positions(row: seq<bool>, value: bool, from: nat): seq<nat>
    decreases |row| - from
  {
    if from >= |row| then []
    else (if row[from] == value then [from] else []) + Positions(row, value, from + 1)
  }

  lemma {:induction false} PositionsAre(row: seq<bool>, value: bool, from: nat)
    ensures forall p: nat :: p in Positions(row, value, from) <==> from <= p < |row| && row[p] == value
    ensures forall i, j | 0 <= i < j < |Positions(row, value, from)| ::
              Positions(row, value, from)[i] < Positions(row, value, from)[j]
    decreases |row| - from
  {
    if from < |row| {
      PositionsAre(row, value, from + 1);
      var rest := Positions(row, value, from + 1);
      forall i | 0 <= i < |rest| ensures rest[i] > from { assert rest[i] in rest; }
    }
  }

  lemma {:induction false} PositionsSkip(row: seq<bool>, value: bool, from: nat, next: nat)
    requires from <= next && NoneIn(row, value, from, next)
    ensures Positions(row, value, from) == Positions(row, value, next)
    decreases next - from
  {
    if from < next { PositionsSkip(row, value, from + 1, next); }
  }

  /** What an iteration that has given `all` will have given in the end, when the next result is `r`. */
  ghost function Rest(row: seq<bool>, value: bool, r: Option<nat>, all: seq<nat>): seq<nat> {
    all + if r.Some? then [r.value] + Positions(row, value, r.value + 1) else []
  }

  lemma {:induction false} Found(row: seq<bool>, value: bool, from: nat, r: Option<nat>, all: seq<nat>)
    requires r.Some? ==> from <= r.value < |row| && row[r.value] == value
    requires NoneIn(row, value, from, if r.Some? then r.value else |row|)
    ensures Rest(row, value, r, all) == all + Positions(row, value, from)
  {
    if r.Some? {
      PositionsSkip(row, value, from, r.value);
    } else if from < |row| {
      PositionsSkip(row, value, from, |row|);
    }
  }

  lemma {:induction false} RestStep(row: seq<bool>, value: bool, p: nat, all: seq<nat>)
    ensures Rest(row, value, Some(p), all) == (all + [p]) + Positions(row, value, p + 1)
  {
  }

  /** Running `iter_ones` to its end gives every one, once, in order. */
  method CollectOnes(bits: AtomicBits) returns (found: Option<seq<nat>>)
    requires bits.Valid()
    ensures found == if bits.numBits == 0 then None else Some(Positions(bits.Row(), true, 0))
  {
    var iter := IterOnes(bits);
    if iter.None? { return None; }
    var all := DrainOnes(iter.value, bits);
    return Some(all);
  }

  method DrainOnes(iter: OnesIter, bits: AtomicBits) returns (all: seq<nat>)
    requires iter.Valid() && iter.bits == bits && iter.pos == 0
    modifies iter
    ensures all == Positions(bits.Row(), true, 0)
  {
    all := [];
    var r := StepOnes(iter, all);
    while r.Some?
      invariant iter.Valid() && (r.Some? ==> iter.pos == r.value + 1 <= bits.numBits)
      invariant Rest(bits.Row(), true, r, all) == Positions(bits.Row(), true, 0)
      decreases if r.Some? then bits.numBits - r.value else 0
    {
      RestStep(bits.Row(), true, r.value, all);
      all := all + [r.value];
      r := StepOnes(iter, all);
    }
  }

  /** `iter_ones`; `None` stands for the panic on a row of no bits, which has no first word. */
  method IterOnes(bits: AtomicBits) returns (r: Option<OnesIter>)
    requires bits.Valid()
    ensures r.None? <==> bits.numBits == 0
    ensures r.Some? ==> fresh(r.value) && r.value.Valid() && r.value.bits == bits && r.value.pos == 0
  {
    if bits.words.Length == 0 { return None; }
    var iter := new OnesIter(bits);
    return Some(iter);
  }

  method StepOnes(iter: OnesIter, ghost all: seq<nat>) returns (r: Option<nat>)
    requires iter.Valid()
    modifies iter
    ensures iter.Valid() && (r.Some? ==> old(iter.pos) <= r.value < iter.bits.numBits && iter.pos == r.value + 1)
    ensures Rest(iter.bits.Row(), true, r, all) == all + Positions(iter.bits.Row(), true, old(iter.pos))
  {
    ghost var pos := iter.pos;
    r := iter.Next();
    Found(iter.bits.Row(), true, pos, r, all);
  }

  /** Running `iter_zeroes` to its end gives every zero, once, in order. */
  method CollectZeroes(bits: AtomicBits) returns (found: Option<seq<nat>>)
    requires bits.Valid()
    ensures found == if bits.numBits == 0 then None else Some(Positions(bits.Row(), false, 0))
  {
    var iter := IterZeroes(bits);
    if iter.None? { return None; }
    var all := DrainZeroes(iter.value, bits);
    return Some(all);
  }

  method DrainZeroes(iter: ZeroesIter, bits: AtomicBits) returns (all: seq<nat>)
    requires iter.Valid() && iter.bits == bits && iter.pos == 0
    modifies iter
    ensures all == Positions(bits.Row(), false, 0)
  {
    all := [];
    var r := StepZeroes(iter, all);
    while r.Some?
      invariant iter.Valid() && (r.Some? ==> iter.pos == r.value + 1 <= bits.numBits)
      invariant Rest(bits.Row(), false, r, all) == Positions(bits.Row(), false, 0)
      decreases if r.Some? then bits.numBits - r.value else 0
    {
      RestStep(bits.Row(), false, r.value, all);
      all := all + [r.value];
      r := StepZeroes(iter, all);
    }
  }

  /** `iter_zeroes`; `None` stands for the panic on a row of no bits, which has no first word. */
  method IterZeroes(bits: AtomicBits) returns (r: Option<ZeroesIter>)
    requires bits.Valid()
    ensures r.None? <==> bits.numBits == 0
    ensures r.Some? ==> fresh(r.value) && r.value.Valid() && r.value.bits == bits && r.value.pos == 0
  {
    if bits.words.Length == 0 { return None; }
    var iter := new ZeroesIter(bits);
    return Some(iter);
  }

  method StepZeroes(iter: ZeroesIter, ghost all: seq<nat>) returns (r: Option<nat>)
    requires iter.Valid()
    modifies iter
    ensures iter.Valid() && (r.Some? ==> old(iter.pos) <= r.value < iter.bits.numBits && iter.pos == r.value + 1)
    ensures Rest(iter.bits.Row(), false, r, all) == all + Positions(iter.bits.Row(), false, old(iter.pos))
  {
    ghost var pos := iter.pos;
    r := iter.Next();
    Found(iter.bits.Row(), false, pos, r, all);
  }

  /** A row of no bits has no ones and no zeros, and neither iterator can be made for it. */
  method EmptyRow(width: nat, ghost w: nat) returns (bits: AtomicBits, ones: Option<seq<nat>>, zeroes: Option<seq<nat>>)
    requires width == 64 && w == Pow2(width) && 64 < w
    ensures bits.Valid() && bits.Row() == [] && ones == None && zeroes == None
  {
    bits := new AtomicBits(false, 0, width, w);
    ones := CollectOnes(bits);
    zeroes := CollectZeroes(bits);
  }
}
