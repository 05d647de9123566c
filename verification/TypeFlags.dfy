/** Type-level sets of flags: the lists that stand for sets, the operators on them, and the generated lists. */
module TypeFlags {
  import opened Bits
  import opened Options

  /** A flag, by its place in the definition. */
  type Flag = nat

  function Elements(l: seq<Flag>): set<Flag> { set i | 0 <= i < |l| :: l[i] }

  /** `SetContain`, for a list written with its head first. */
  predicate SetContain(l: seq<Flag>, t: Flag) {
    l != [] && (l[0] == t || SetContain(l[1..], t))
  }

  /** `SetInclude`. */
  predicate SetInclude(super: seq<Flag>, sub: seq<Flag>) {
    if super == [] then sub == []
    else if sub == [] then true
    else if super[0] == sub[0] then SetInclude(super[1..], sub[1..])
    else SetContain(super[1..], sub[0]) && SetInclude(super[1..], sub[1..])
  }

  /** The order of all generated lists: later flags first. */
  predicate Canonical(l: seq<Flag>) { forall i, j | 0 <= i < j < |l| :: l[i] > l[j] }

  lemma {:induction false} ContainIsMember(l: seq<Flag>, t: Flag)
    ensures SetContain(l, t) <==> t in Elements(l)
  {
    if l != [] {
      ContainIsMember(l[1..], t);
      assert t in Elements(l) <==> t == l[0] || t in Elements(l[1..]) by {
        if t in Elements(l[1..]) { var i :| 0 <= i < |l[1..]| && l[1..][i] == t; assert l[i + 1] == t; }
        if t in Elements(l) { var i :| 0 <= i < |l| && l[i] == t; assert i > 0 ==> l[1..][i - 1] == t; }
      }
    }
  }

  lemma HeadAndTail(l: seq<Flag>)
    requires l != []
    ensures Elements(l) == {l[0]} + Elements(l[1..])
    ensures Canonical(l) ==> Canonical(l[1..]) && forall x | x in Elements(l[1..]) :: x < l[0]
  {
    forall x | x in Elements(l) ensures x in {l[0]} + Elements(l[1..]) {
      var i :| 0 <= i < |l| && l[i] == x;
      if i > 0 { assert l[1..][i - 1] == x; }
    }
    forall x | x in Elements(l[1..]) ensures x in Elements(l) {
      var i :| 0 <= i < |l[1..]| && l[1..][i] == x;
      assert l[i + 1] == x;
    }
  }

  /** The sublist is no longer, and each of its flags is in the other list at its own place or later. */
  predicate InPlace(super: seq<Flag>, sub: seq<Flag>) {
    |sub| <= |super| && forall i | 0 <= i < |sub| :: sub[i] in super[i..]
  }

  /** What `SetInclude` decides, on all lists. */
  lemma {:induction false} IncludeIsInPlace(super: seq<Flag>, sub: seq<Flag>)
    ensures SetInclude(super, sub) <==> InPlace(super, sub)
  {
    if super != [] && sub != [] {
      var super', sub' := super[1..], sub[1..];
      IncludeIsInPlace(super', sub');
      ContainIsMember(super', sub[0]);
      ElementsIn(super');
      assert sub[0] in super[0..] <==> sub[0] == super[0] || sub[0] in super' by {
        assert super == [super[0]] + super';
      }
      forall i | 0 <= i < |sub'| ensures i < |super'| ==> super'[i..] == super[i + 1..] && sub'[i] == sub[i + 1] {}
      if InPlace(super, sub) {
        forall i | 0 <= i < |sub'| ensures sub'[i] in super'[i..] { assert sub[i + 1] in super[i + 1..]; }
      }
      if InPlace(super', sub') && sub[0] in super {
        forall i | 0 <= i < |sub| ensures sub[i] in super[i..] { if i > 0 { assert sub'[i - 1] in super'[i - 1..]; } }
      }
    }
  }

  /** On all lists: `SetInclude` never holds without inclusion of the sets, and it misses an inclusion exactly when
      the sublist is too long or has a flag that the other list has only before that flag's place. */
  lemma IncludeIsSubsetIff(super: seq<Flag>, sub: seq<Flag>)
    ensures SetInclude(super, sub) ==> Elements(sub) <= Elements(super)
    ensures (SetInclude(super, sub) <==> Elements(sub) <= Elements(super))
       <==> (Elements(sub) <= Elements(super) ==> InPlace(super, sub))
  {
    IncludeIsInPlace(super, sub);
    ElementsIn(super);
    if InPlace(super, sub) {
      forall x | x in Elements(sub) ensures x in Elements(super) { var i :| 0 <= i < |sub| && sub[i] == x; }
    }
  }

  /** Canonical lists always are in place, so on them `SetInclude` is inclusion of sets. */
  lemma IncludeIsSubset(super: seq<Flag>, sub: seq<Flag>)
    requires Canonical(super) && Canonical(sub)
    ensures SetInclude(super, sub) <==> Elements(sub) <= Elements(super)
  {
    IncludeIsSubsetIff(super, sub);
    if Elements(sub) <= Elements(super) { CanonicalInPlace(super, sub); }
  }

  lemma {:induction false} CanonicalInPlace(super: seq<Flag>, sub: seq<Flag>)
    requires Canonical(super) && Canonical(sub) && Elements(sub) <= Elements(super)
    ensures InPlace(super, sub)
  {
    if sub != [] {
      assert sub[0] in Elements(sub);
      assert super != [];
      HeadAndTail(super);
      HeadAndTail(sub);
      CanonicalInPlace(super[1..], sub[1..]);
      ElementsIn(super);
      forall i | 0 <= i < |sub| ensures sub[i] in super[i..] {
        if i > 0 { assert sub[1..][i - 1] in super[1..][i - 1..] && super[1..][i - 1..] == super[i..]; }
      }
    }
  }

  /** On other lists it need not be. */
  lemma IncludeNeedsOrder()
    ensures Elements([0, 1]) <= Elements([1, 0]) && !SetInclude([1, 0], [0, 1])
    ensures Elements([0, 0]) <= Elements([0]) && !SetInclude([0], [0, 0])
  {
    assert [1, 0][1..] == [0] && [0, 1][1..] == [1] && [0][1..] == [] && [0, 0][1..] == [0] && [1][1..] == [];
    assert Elements([0, 1]) <= Elements([1, 0]) by { assert [1, 0][1] == 0 && [1, 0][0] == 1; }
    assert Elements([0, 0]) <= Elements([0]) by { assert [0][0] == 0; }
  }

  // ---- The generated sets ----

  /** The flags among the first `n` whose bit is set in `x`, in ascending order. */
  function ItemsOf(x: nat, n: nat): seq<Flag> {
    if n == 0 then [] else ItemsOf(x, n - 1) + if Bit(x, n - 1) then [n - 1] else []
  }

  lemma {:induction false} ItemsAre(x: nat, n: nat)
    ensures forall t: Flag :: t in Elements(ItemsOf(x, n)) <==> t < n && Bit(x, t)
    ensures forall i, j | 0 <= i < j < |ItemsOf(x, n)| :: ItemsOf(x, n)[i] < ItemsOf(x, n)[j]
    ensures forall i | 0 <= i < |ItemsOf(x, n)| :: ItemsOf(x, n)[i] < n
  {
    if n > 0 {
      ItemsAre(x, n - 1);
      var rest := ItemsOf(x, n - 1);
      var all := ItemsOf(x, n);
      forall t: Flag ensures t in Elements(all) <==> t < n && Bit(x, t) {
        if t in Elements(rest) { var i :| 0 <= i < |rest| && rest[i] == t; assert all[i] == t; }
        if t in Elements(all) { var i :| 0 <= i < |all| && all[i] == t; assert i < |rest| ==> rest[i] == t; }
        if t == n - 1 && Bit(x, t) { assert all[|rest|] == t; }
      }
    }
  }

  /** `generate_flag_sets` for `n` flags: the set with number `i` has the flags whose bits are set in `i`. */
  method GenerateFlagSets(n: nat) returns (sets: seq<seq<Flag>>)
    ensures |sets| == Pow2(n) && forall i | 0 <= i < |sets| :: sets[i] == ItemsOf(i, n)
  {
    var limit := Pow2(n);
    sets := [];
    for i := 0 to limit
      invariant |sets| == i && forall k | 0 <= k < i :: sets[k] == ItemsOf(k, n)
    {
      var items: seq<Flag> := [];
      for j := 0 to n
        invariant items == ItemsOf(i, j)
      {
        LowestBit(i, j);
        if And(Shr(i, j), 1) == 1 { items := items + [j]; }
      }
      sets := sets + [items];
    }
  }

  lemma {:induction false} LowestBit(x: nat, j: nat)
    ensures And(Shr(x, j), 1) == 1 <==> Bit(x, j)
  {
    BitIsDigit(x, j);
    AndStep(Shr(x, j), 1);
  }

  /** `type_name_tokens`: each item goes in front of the list, so the last item is its head. */
  method TypeName(items: seq<Flag>) returns (l: seq<Flag>)
    ensures |l| == |items| && forall i | 0 <= i < |l| :: l[i] == items[|items| - 1 - i]
  {
    l := [];
    for k := 0 to |items|
      invariant |l| == k && forall i | 0 <= i < k :: l[i] == items[k - 1 - i]
    {
      l := [items[k]] + l;
    }
  }

  /** The lists that are generated are canonical, and stand for the sets they are made from. */
  lemma {:induction false} TypeNameIsCanonical(x: nat, n: nat, l: seq<Flag>)
    requires var items := ItemsOf(x, n); |l| == |items| && forall i | 0 <= i < |l| :: l[i] == items[|items| - 1 - i]
    ensures Canonical(l) && Elements(l) == Elements(ItemsOf(x, n))
  {
    var items := ItemsOf(x, n);
    ItemsAre(x, n);
    forall t | t in Elements(items) ensures t in Elements(l) {
      var i :| 0 <= i < |items| && items[i] == t;
      assert l[|items| - 1 - i] == t;
    }
    forall t | t in Elements(l) ensures t in Elements(items) {
      var i :| 0 <= i < |l| && l[i] == t;
      assert items[|items| - 1 - i] == t;
    }
  }

  // ---- Every subset, once ----

  /** The number of a set of flags among the first `n`. */
  ghost function Number(s: set<Flag>, n: nat): (x: nat)
    ensures x < Pow2(n)
  {
    if n == 0 then 0 else Number(s, n - 1) + if n - 1 in s then Pow2(n - 1) else 0
  }

  lemma {:induction false} NumberBits(s: set<Flag>, n: nat, t: nat)
    ensures Bit(Number(s, n), t) <==> t < n && t in s
  {
    if n == 0 {
      BitOfZero(t);
    } else {
      NumberBits(s, n - 1, t);
      HighBit(Number(s, n - 1), n - 1, t);
    }
  }

  /** Adding 2^k to a number below it sets bit `k`. */
  lemma {:induction false} HighBit(x: nat, k: nat, t: nat)
    requires x < Pow2(k)
    ensures Bit(x + Pow2(k), t) <==> t == k || Bit(x, t)
    ensures !Bit(x, k)
  {
    if k == 0 {
      if t > 0 { BitOfZero(t - 1); BitOfZero(t); }
    } else {
      assert (x + Pow2(k)) / 2 == x / 2 + Pow2(k - 1) && (x + Pow2(k)) % 2 == x % 2;
      HighBit(x / 2, k - 1, if t > 0 then t - 1 else 0);
    }
  }

  /** A number with all the bits of another is at least as large. */
  lemma {:induction false} MoreBitsIsLarger(x: nat, y: nat)
    requires forall t: nat :: Bit(x, t) ==> Bit(y, t)
    ensures x <= y
    decreases x
  {
    if x > 0 {
      forall t: nat ensures Bit(x / 2, t) ==> Bit(y / 2, t) {
        assert Bit(x, t + 1) == Bit(x / 2, t) && Bit(y, t + 1) == Bit(y / 2, t);
      }
      MoreBitsIsLarger(x / 2, y / 2);
      assert Bit(x, 0) ==> Bit(y, 0);
    }
  }

  /** Below 2^n there are only bits below `n`. */
  lemma {:induction false} SmallBits(x: nat, n: nat, t: nat)
    requires x < Pow2(n) && Bit(x, t)
    ensures t < n
  {
    if n == 0 {
      BitOfZero(t);
    } else if t > 0 {
      SmallBits(x / 2, n - 1, t - 1);
    }
  }

  /** Every set of flags is generated, and at one place only. */
  lemma {:induction false} EverySubsetOnce(s: set<Flag>, n: nat, x: nat)
    requires (forall t | t in s :: t < n) && x < Pow2(n)
    ensures Elements(ItemsOf(x, n)) == s <==> x == Number(s, n)
  {
    ItemsAre(x, n);
    forall t: nat ensures Bit(Number(s, n), t) <==> t in s { NumberBits(s, n, t); }
    if x == Number(s, n) {
      assert forall t: nat :: t in Elements(ItemsOf(x, n)) <==> t in s;
    }
    if Elements(ItemsOf(x, n)) == s {
      forall t: nat ensures Bit(x, t) <==> Bit(Number(s, n), t) { if Bit(x, t) { SmallBits(x, n, t); } }
      MoreBitsIsLarger(x, Number(s, n));
      MoreBitsIsLarger(Number(s, n), x);
    }
  }

  // ---- Extending a set ----

  /** `contains_type` and `contains_set`. */
  predicate ContainsSet(big: seq<Flag>, small: seq<Flag>) { forall i | 0 <= i < |small| :: small[i] in big }

  /** `extent_one_type`: the first of the sets that has the flag and all flags of the given set. */
  method ExtentOneType(t: Flag, items: seq<Flag>, sets: seq<seq<Flag>>) returns (r: Option<nat>)
    ensures r.Some? ==> r.value < |sets| && t in sets[r.value] && ContainsSet(sets[r.value], items)
    ensures forall i | 0 <= i < (if r.Some? then r.value else |sets|) :: !(t in sets[i] && ContainsSet(sets[i], items))
  {
    for i := 0 to |sets|
      invariant forall k | 0 <= k < i :: !(t in sets[k] && ContainsSet(sets[k], items))
    {
      if t in sets[i] && ContainsSet(sets[i], items) { return Some(i); }
    }
    return None;
  }

  /** Among the generated sets, the first superset is exactly the set with the flag added, so there always is one. */
  lemma {:induction false} FirstSupersetIsUnion(x: nat, n: nat, t: Flag, y: nat)
    requires x < Pow2(n) && t < n && y < Pow2(n)
    ensures var u := Number(Elements(ItemsOf(x, n)) + {t}, n);
            && (t in ItemsOf(y, n) && ContainsSet(ItemsOf(y, n), ItemsOf(x, n)) ==> u <= y)
            && t in ItemsOf(u, n) && ContainsSet(ItemsOf(u, n), ItemsOf(x, n))
            && Elements(ItemsOf(u, n)) == Elements(ItemsOf(x, n)) + {t}
  {
    var s := Elements(ItemsOf(x, n)) + {t};
    var u := Number(s, n);
    ItemsAre(x, n);
    ItemsAre(y, n);
    ItemsAre(u, n);
    EverySubsetOnce(s, n, u);
    ElementsIn(ItemsOf(u, n));
    ElementsIn(ItemsOf(x, n));
    ElementsIn(ItemsOf(y, n));
    if t in ItemsOf(y, n) && ContainsSet(ItemsOf(y, n), ItemsOf(x, n)) {
      forall b: nat ensures Bit(u, b) ==> Bit(y, b) { NumberBits(s, n, b); }
      MoreBitsIsLarger(u, y);
    }
  }

  lemma ElementsIn(l: seq<Flag>)
    ensures forall t: Flag :: t in l <==> t in Elements(l)
  {
  }

  /** The output of `impl_set_extend` for the set with number `x` and a flag: the set with the flag in it. */
  method Extend(x: nat, t: Flag, n: nat, sets: seq<seq<Flag>>) returns (out: seq<Flag>)
    requires x < Pow2(n) == |sets| && t < n && forall i | 0 <= i < |sets| :: sets[i] == ItemsOf(i, n)
    ensures Elements(out) == Elements(ItemsOf(x, n)) + {t}
  {
    if t in sets[x] {
      ElementsIn(sets[x]);
      return sets[x];
    }
    var r := ExtentOneType(t, sets[x], sets);
    ghost var u := Number(Elements(ItemsOf(x, n)) + {t}, n);
    FirstSupersetIsUnion(x, n, t, u);
    if r.Some? { FirstSupersetIsUnion(x, n, t, r.value); }
    assert r == Some(u);
    return sets[r.value];
  }
}
