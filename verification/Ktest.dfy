/** The kernel test runner: the tree of test modules, its iterator, the whitelist, and the accounting. */
module Ktests {
  import opened Options

  type Path = seq<string>

  datatype Test = Test(package: string, modulePath: Path, fnName: string)

  /** Children are in the order of their names. */
  datatype Module = Module(total: nat, name: string, children: seq<Module>, tests: seq<Test>)

  predicate Less(a: string, b: string) {
    b != "" && (a == "" || a[0] < b[0] || (a[0] == b[0] && Less(a[1..], b[1..])))
  }

  /** The order of strings: by the first character in which they differ, and a proper prefix comes first. */
  lemma {:induction false} LessIff(a: string, b: string)
    ensures Less(a, b) <==> exists k: nat :: FirstDifference(a, b, k)
  {
    if a != "" && b != "" && a[0] == b[0] {
      LessIff(a[1..], b[1..]);
      if k: nat :| FirstDifference(a[1..], b[1..], k) {
        assert a[..k + 1] == [a[0]] + a[1..][..k] && b[..k + 1] == [b[0]] + b[1..][..k];
        assert FirstDifference(a, b, k + 1);
      }
      if k: nat :| FirstDifference(a, b, k) {
        assert k > 0;
        assert a[1..][..k - 1] == a[..k][1..] && b[1..][..k - 1] == b[..k][1..];
        assert FirstDifference(a[1..], b[1..], k - 1);
      }
    } else if Less(a, b) {
      assert FirstDifference(a, b, 0);
    }
  }

  ghost predicate FirstDifference(a: string, b: string, k: nat) {
    k <= |a| && k < |b| && a[..k] == b[..k] && (k == |a| || a[k] < b[k])
  }

  function NewModule(name: string): Module { Module(0, name, [], []) }

  // ---- Building the tree ----

  /** `KtestModule::insert`. Every module below the root counts a test twice. */
  function Insert(m: Module, path: Path, test: Test): Module
    decreases |path|, 1
  {
    if path == [] then m.(total := m.total + 1, tests := m.tests + [test])
    else m.(total := m.total + 1, children := InsertBelow(m.children, path, test, 0))
  }

  /** The entry of the map of children with the first name on the path, made if it is not there. */
  function InsertBelow(children: seq<Module>, path: Path, test: Test, i: nat): seq<Module>
    requires path != [] && i <= |children|
    decreases |path|, 0, |children| - i
  {
    if i == |children| then children + [InsertChild(NewModule(path[0]), path, test)]
    else if children[i].name == path[0] then children[i := InsertChild(children[i], path, test)]
    else if Less(path[0], children[i].name) then
      children[..i] + [InsertChild(NewModule(path[0]), path, test)] + children[i..]
    else InsertBelow(children, path, test, i + 1)
  }

  function InsertChild(child: Module, path: Path, test: Test): Module
    requires path != []
    decreases |path| - 1, 2
  {
    Insert(child.(total := child.total + 1), path[1..], test)
  }

  // ---- Walking the tree ----

  /** A module and all below it, parents first. */
  function Preorder(m: Module): seq<Module> { [m] + Below(m.children) }

  function Below(children: seq<Module>): seq<Module> {
    if children == [] then [] else Preorder(children[0]) + Below(children[1..])
  }

  /** The tests of some modules. */
  function TestsOf(modules: seq<Module>): seq<Test> {
    if modules == [] then [] else modules[0].tests + TestsOf(modules[1..])
  }

  lemma {:induction false} TestsOfAppend(a: seq<Module>, b: seq<Module>)
    ensures TestsOf(a + b) == TestsOf(a) + TestsOf(b)
  {
    if a == [] {
      assert a + b == b;
    } else {
      assert (a + b)[1..] == a[1..] + b;
      TestsOfAppend(a[1..], b);
    }
  }

  lemma {:induction false} BelowAppend(a: seq<Module>, b: seq<Module>)
    ensures Below(a + b) == Below(a) + Below(b)
  {
    if a == [] {
      assert a + b == b;
    } else {
      assert (a + b)[1..] == a[1..] + b && (a + b)[0] == a[0];
      BelowAppend(a[1..], b);
    }
  }

  /** How many tests there are in a module and below it. */
  function Size(m: Module): nat { |TestsOf(Preorder(m))| }

  /** The tests in a module and below it, and those in and below some modules. */
  ghost function AllTests(m: Module): multiset<Test> { multiset(TestsOf(Preorder(m))) }

  ghost function TestsBelow(children: seq<Module>): multiset<Test> { multiset(TestsOf(Below(children))) }

  lemma {:induction false} ModuleParts(m: Module)
    ensures AllTests(m) == multiset(m.tests) + TestsBelow(m.children) && Size(m) == |AllTests(m)|
  {
    assert Preorder(m)[1..] == Below(m.children);
  }

  lemma {:induction false} BelowParts(a: seq<Module>, b: seq<Module>)
    ensures TestsBelow(a + b) == TestsBelow(a) + TestsBelow(b)
  {
    BelowAppend(a, b);
    TestsOfAppend(Below(a), Below(b));
  }

  lemma {:induction false} BelowOne(a: seq<Module>, c: Module, b: seq<Module>)
    ensures TestsBelow(a + [c] + b) == TestsBelow(a) + AllTests(c) + TestsBelow(b)
  {
    BelowParts(a + [c], b);
    BelowParts(a, [c]);
    assert Below([c]) == Preorder(c) by { assert [c][1..] == [] && Preorder(c) + Below([]) == Preorder(c); }
  }

  /** An insertion adds one test to the tree, the given one. */
  lemma {:induction false} InsertAddsOne(m: Module, path: Path, test: Test)
    ensures AllTests(Insert(m, path, test)) == AllTests(m) + multiset{test}
    ensures Size(Insert(m, path, test)) == Size(m) + 1 && Insert(m, path, test).total == m.total + 1
    ensures Insert(m, path, test).name == m.name
    ensures path != [] ==> Insert(m, path, test).tests == m.tests
    decreases |path|, 1
  {
    ModuleParts(m);
    ModuleParts(Insert(m, path, test));
    if path != [] { InsertBelowAddsOne(m.children, path, test, 0); }
  }

  lemma {:induction false} InsertBelowAddsOne(children: seq<Module>, path: Path, test: Test, i: nat)
    requires path != [] && i <= |children|
    ensures TestsBelow(InsertBelow(children, path, test, i)) == TestsBelow(children) + multiset{test}
    decreases |path|, 0, |children| - i
  {
    if i == |children| || (children[i].name != path[0] && Less(path[0], children[i].name)) {
      var made := InsertChild(NewModule(path[0]), path, test);
      ChildAddsOne(NewModule(path[0]), path, test);
      NewIsEmpty(path[0]);
      PutBetween(children, i, made, multiset{test});
      assert i == |children| ==> children + [made] == children[..i] + [made] + children[i..];
    } else if children[i].name == path[0] {
      ChildAddsOne(children[i], path, test);
      PutInPlace(children, i, InsertChild(children[i], path, test), multiset{test});
    } else {
      InsertBelowAddsOne(children, path, test, i + 1);
    }
  }

  lemma {:induction false} PutBetween(children: seq<Module>, i: nat, c: Module, more: multiset<Test>)
    requires i <= |children| && AllTests(c) == multiset{} + more
    ensures TestsBelow(children[..i] + [c] + children[i..]) == TestsBelow(children) + more
  {
    var a, b := children[..i], children[i..];
    assert children == a + b;
    BelowOne(a, c, b);
    BelowParts(a, b);
    MoveLast(TestsBelow(a), multiset{}, more, TestsBelow(b));
  }

  lemma {:induction false} PutInPlace(children: seq<Module>, i: nat, c: Module, more: multiset<Test>)
    requires i < |children| && AllTests(c) == AllTests(children[i]) + more
    ensures TestsBelow(children[i := c]) == TestsBelow(children) + more
  {
    var a, b := children[..i], children[i + 1..];
    assert children == a + [children[i]] + b && children[i := c] == a + [c] + b;
    BelowOne(a, c, b);
    BelowOne(a, children[i], b);
    MoveLast(TestsBelow(a), AllTests(children[i]), more, TestsBelow(b));
  }

  lemma MoveLast(a: multiset<Test>, b: multiset<Test>, c: multiset<Test>, d: multiset<Test>)
    ensures a + (b + c) + d == a + b + d + c && a + multiset{} + d == a + d
  {
  }

  lemma {:induction false} NewIsEmpty(name: string)
    ensures Size(NewModule(name)) == 0 && AllTests(NewModule(name)) == multiset{}
  {
    ModuleParts(NewModule(name));
    assert Below([]) == [];
  }

  lemma {:induction false} ChildAddsOne(child: Module, path: Path, test: Test)
    requires path != []
    ensures AllTests(InsertChild(child, path, test)) == AllTests(child) + multiset{test}
    ensures Size(InsertChild(child, path, test)) == Size(child) + 1 && InsertChild(child, path, test).name == child.name
    ensures InsertChild(child, path, test).total == child.total + 2
    decreases |path| - 1, 2
  {
    var c := child.(total := child.total + 1);
    InsertAddsOne(c, path[1..], test);
    ModuleParts(child);
    ModuleParts(c);
  }

  // ---- Where a test goes ----

  function Child(children: seq<Module>, name: string): Option<Module> {
    if children == [] then None
    else if children[0].name == name then Some(children[0])
    else Child(children[1..], name)
  }

  /** The tests at a path. */
  function TestsAt(m: Module, path: Path): seq<Test>
    decreases |path|
  {
    if path == [] then m.tests
    else match Child(m.children, path[0])
      case None => []
      case Some(c) => TestsAt(c, path[1..])
  }

  lemma {:induction false} LessOrder(a: string, b: string)
    ensures !Less(a, a)
    ensures a == b || Less(a, b) || Less(b, a)
    ensures !(Less(a, b) && Less(b, a))
  {
    if a != "" && b != "" && a[0] == b[0] {
      LessOrder(a[1..], b[1..]);
      if a[1..] == b[1..] { assert a == [a[0]] + a[1..] && b == [b[0]] + b[1..]; }
    }
    if a != "" { LessOrder(a[1..], a[1..]); }
  }

  lemma {:induction false} LessTransitive(a: string, b: string, c: string)
    requires Less(a, b) && Less(b, c)
    ensures Less(a, c)
  {
    if a != "" && a[0] == b[0] == c[0] { LessTransitive(a[1..], b[1..], c[1..]); }
  }

  /** Children have different names, in ascending order, at every level. */
  ghost predicate Ordered(m: Module) {
    NamesAscend(m.children) && forall i | 0 <= i < |m.children| :: Ordered(m.children[i])
  }

  ghost predicate NamesAscend(children: seq<Module>) {
    forall i, j {:trigger Ascends(children, i, j)} | 0 <= i < j < |children| :: Ascends(children, i, j)
  }

  predicate Ascends(children: seq<Module>, i: nat, j: nat)
    requires i < |children| && j < |children|
  {
    Less(children[i].name, children[j].name)
  }

  lemma {:induction false} ChildAt(children: seq<Module>, i: nat)
    requires NamesAscend(children) && i < |children|
    ensures Child(children, children[i].name) == Some(children[i])
  {
    if i > 0 {
      assert Ascends(children, 0, i);
      LessOrder(children[0].name, children[i].name);
      forall a, b | 0 <= a < b < |children[1..]| ensures Ascends(children[1..], a, b) {
        assert Ascends(children, a + 1, b + 1);
      }
      ChildAt(children[1..], i - 1);
    }
  }

  lemma {:induction false} ChildFound(children: seq<Module>, name: string)
    ensures Child(children, name).Some? ==>
              exists i :: 0 <= i < |children| && children[i] == Child(children, name).value && children[i].name == name
    ensures Child(children, name).None? ==> forall i | 0 <= i < |children| :: children[i].name != name
  {
    if children != [] && children[0].name != name {
      ChildFound(children[1..], name);
      if Child(children[1..], name).Some? {
        var rest := children[1..];
        var i :| 0 <= i < |rest| && rest[i] == Child(rest, name).value && rest[i].name == name;
        assert children[i + 1] == children[1..][i];
      } else {
        forall i | 0 <= i < |children| ensures children[i].name != name {
          if i > 0 { assert children[1..][i - 1] == children[i]; }
        }
      }
    }
  }

  /** The child that `insert` works on: the one with that name, or a new one. */
  function Target(children: seq<Module>, name: string): Module {
    match Child(children, name)
    case Some(c) => c
    case None => NewModule(name)
  }

  /** The map of children after an insertion: one entry is new or replaced, and the order is kept. */
  lemma {:induction false} InsertBelowIs(children: seq<Module>, path: Path, test: Test, i: nat, k: nat)
    returns (made: Module)
    requires path != [] && i <= |children| && NamesAscend(children)
    requires forall j | 0 <= j < i :: Less(children[j].name, path[0])
    ensures made == InsertChild(Target(children, path[0]), path, test)
    ensures var r := InsertBelow(children, path, test, i);
            NamesAscend(r) && (k < |r| ==> r[k] == made || r[k] in children) && made in r
            && forall c | c in children && c.name != path[0] :: c in r
    decreases |children| - i
  {
    var r := InsertBelow(children, path, test, i);
    made := InsertChild(Target(children, path[0]), path, test);
    InsertKeepsName(Target(children, path[0]).(total := Target(children, path[0]).total + 1), path[1..], test);
    ChildFound(children, path[0]);
    if i < |children| && children[i].name == path[0] {
      ChildAt(children, i);
      assert made.name == children[i].name && r == children[i := made] && r[i] == made;
      forall a, b | 0 <= a < b < |r| ensures Ascends(r, a, b) { assert Ascends(children, a, b); }
      forall c | c in children && c.name != path[0] ensures c in r {
        var j :| 0 <= j < |children| && children[j] == c;
        assert r[j] == c;
      }
    } else if i == |children| || Less(path[0], children[i].name) {
      NotThere(children, path[0], i);
      assert r == children[..i] + [made] + children[i..] && r[i] == made;
      InsertedAscends(children, i, made);
      forall c | c in children ensures c in r {
        var j :| 0 <= j < |children| && children[j] == c;
        assert r[if j < i then j else j + 1] == c;
      }
    } else {
      LessOrder(path[0], children[i].name);
      made := InsertBelowIs(children, path, test, i + 1, k);
    }
  }

  lemma {:induction false} InsertKeepsName(m: Module, path: Path, test: Test)
    ensures Insert(m, path, test).name == m.name
  {
  }

  lemma {:induction false} NotThere(children: seq<Module>, name: string, i: nat)
    requires NamesAscend(children) && i <= |children| && forall j | 0 <= j < i :: Less(children[j].name, name)
    requires i < |children| ==> Less(name, children[i].name)
    ensures Child(children, name).None?
  {
    ChildFound(children, name);
    forall j | 0 <= j < |children| ensures children[j].name != name {
      LessOrder(name, name);
      if j > i { assert Ascends(children, i, j); LessTransitive(name, children[i].name, children[j].name); }
    }
  }

  lemma {:induction false} InsertedAscends(children: seq<Module>, i: nat, made: Module)
    requires NamesAscend(children) && i <= |children| && forall j | 0 <= j < i :: Less(children[j].name, made.name)
    requires i < |children| ==> Less(made.name, children[i].name)
    ensures NamesAscend(children[..i] + [made] + children[i..])
  {
    var r := children[..i] + [made] + children[i..];
    forall a, b | 0 <= a < b < |r| ensures Ascends(r, a, b) {
      if a != i && b != i {
        assert Ascends(children, if a < i then a else a - 1, if b < i then b else b - 1);
      } else if a == i && b > i + 1 {
        assert Ascends(children, i, b - 1);
        LessTransitive(made.name, children[i].name, children[b - 1].name);
      }
    }
  }

  /** An insertion keeps the order of the tree. */
  lemma {:induction false} InsertKeepsOrder(m: Module, path: Path, test: Test)
    requires Ordered(m)
    ensures Ordered(Insert(m, path, test))
    decreases |path|
  {
    if path != [] {
      var r := InsertBelow(m.children, path, test, 0);
      var made := InsertBelowIs(m.children, path, test, 0, 0);
      var target := Target(m.children, path[0]);
      ChildFound(m.children, path[0]);
      OrderedWithTotal(target, target.total + 1);
      InsertKeepsOrder(target.(total := target.total + 1), path[1..], test);
      forall k | 0 <= k < |r| ensures Ordered(r[k]) { var x := InsertBelowIs(m.children, path, test, 0, k); }
    }
  }

  /** The total of a module is twice the number of its tests, here and at every level below. */
  ghost predicate Doubled(m: Module) {
    m.total == 2 * Size(m) && forall i | 0 <= i < |m.children| :: Doubled(m.children[i])
  }

  ghost predicate AllDoubled(children: seq<Module>) { forall i | 0 <= i < |children| :: Doubled(children[i]) }

  /** `insert` counts every test twice in all modules below the one it starts from. */
  lemma {:induction false} InsertKeepsDoubled(m: Module, path: Path, test: Test)
    requires Ordered(m) && AllDoubled(m.children)
    ensures AllDoubled(Insert(m, path, test).children)
    decreases |path|
  {
    if path != [] {
      var r := InsertBelow(m.children, path, test, 0);
      var made := InsertBelowIs(m.children, path, test, 0, 0);
      var target := Target(m.children, path[0]);
      ChildFound(m.children, path[0]);
      NewIsEmpty(path[0]);
      var counted := target.(total := target.total + 1);
      OrderedWithTotal(target, target.total + 1);
      InsertKeepsDoubled(counted, path[1..], test);
      ChildAddsOne(target, path, test);
      assert Doubled(made);
      forall k | 0 <= k < |r| ensures Doubled(r[k]) { var x := InsertBelowIs(m.children, path, test, 0, k); }
    }
  }

  /** So the total of every module below a root is twice the number of tests in it. */
  lemma {:induction false} DoubledBelow(children: seq<Module>, m: Module)
    requires AllDoubled(children) && m in Below(children)
    ensures m.total == 2 * Size(m)
  {
    var c := children[0];
    assert Below(children) == [c] + Below(c.children) + Below(children[1..]);
    if m in Below(c.children) {
      DoubledBelow(c.children, m);
    } else if m in Below(children[1..]) {
      DoubledBelow(children[1..], m);
    }
  }

  /** An insertion puts the test at the end of those at its path, and leaves all others where they are. */
  lemma {:induction false} InsertGoesToPath(m: Module, path: Path, test: Test, at: Path)
    requires Ordered(m)
    ensures TestsAt(Insert(m, path, test), at) == TestsAt(m, at) + if at == path then [test] else []
    decreases |path|
  {
    if path != [] && at != [] {
      var target := Target(m.children, path[0]);
      ChildFound(m.children, path[0]);
      ChildAfter(m.children, path, test, at[0]);
      assert at == [at[0]] + at[1..] && path == [path[0]] + path[1..];
      if at[0] == path[0] {
        OrderedWithTotal(target, target.total + 1);
        InsertGoesToPath(target.(total := target.total + 1), path[1..], test, at[1..]);
        TotalDoesNotMatter(target, target.total + 1, at[1..]);
        NothingInNew(path[0], at[1..]);
      }
    }
  }

  lemma {:induction false} NothingInNew(name: string, at: Path)
    ensures TestsAt(NewModule(name), at) == []
  {
  }

  lemma {:induction false} OrderedWithTotal(m: Module, total: nat)
    requires Ordered(m)
    ensures Ordered(m.(total := total))
  {
  }

  lemma {:induction false} TotalDoesNotMatter(m: Module, total: nat, at: Path)
    ensures TestsAt(m.(total := total), at) == TestsAt(m, at)
  {
  }

  /** What the entries of the map of children are after an insertion. */
  lemma {:induction false} ChildAfter(children: seq<Module>, path: Path, test: Test, name: string)
    requires path != [] && NamesAscend(children)
    ensures Child(InsertBelow(children, path, test, 0), name) ==
            if name == path[0] then Some(InsertChild(Target(children, name), path, test)) else Child(children, name)
  {
    var r := InsertBelow(children, path, test, 0);
    var made := InsertBelowIs(children, path, test, 0, 0);
    InsertKeepsName(Target(children, path[0]).(total := Target(children, path[0]).total + 1), path[1..], test);
    ChildFound(children, path[0]);
    if name == path[0] {
      var k :| 0 <= k < |r| && r[k] == made;
      ChildAt(r, k);
    } else {
      ChildFound(children, name);
      ChildFound(r, name);
      match Child(children, name)
      case Some(c) =>
        var k :| 0 <= k < |r| && r[k] == c;
        ChildAt(r, k);
      case None =>
        forall k | 0 <= k < |r| ensures r[k].name != name { var x := InsertBelowIs(children, path, test, 0, k); }
    }
  }

  // ---- The module iterator ----

  /** A module on the stack, and the number of its children already given. */
  datatype Frame = Frame(mod: Module, next: nat)

  /** What an iterator with this stack will still give. */
  ghost function Remaining(stack: seq<Frame>): seq<Module>
    requires StackOk(stack)
  {
    if stack == [] then []
    else
      var top := stack[|stack| - 1];
      Below(top.mod.children[top.next..]) + Remaining(stack[..|stack| - 1])
  }

  class CrateIter {
    var stack: seq<Frame>

    ghost predicate Valid()
      reads this
    {
      StackOk(stack)
    }

    constructor (root: Module)
      ensures Valid() && Remaining(stack) == Below(root.children)
    {
      stack := [Frame(root, 0)];
      new;
      assert stack[..0] == [] && root.children[0..] == root.children;
    }

    /** `next`: the modules below the root come one by one, each before those below it. */
    method Next() returns (r: Option<Module>)
      requires Valid()
      modifies this
      ensures Valid()
      ensures if Remaining(old(stack)) == [] then r == None && Remaining(stack) == []
              else r == Some(Remaining(old(stack))[0]) && Remaining(stack) == Remaining(old(stack))[1..]
    {
      while stack != []
        invariant Valid() && Remaining(stack) == Remaining(old(stack))
        decreases |stack|
      {
        var top := stack[|stack| - 1];
        if top.next < |top.mod.children| {
          var m := Descend();
          return Some(m);
        }
        assert top.mod.children[top.next..] == [];
        stack := stack[..|stack| - 1];
      }
      return None;
    }

    /** Steps to the next child of the module on top of the stack. */
    method Descend() returns (m: Module)
      requires Valid() && stack != [] && stack[|stack| - 1].next < |stack[|stack| - 1].mod.children|
      modifies this
      ensures Valid() && Remaining(old(stack)) == [m] + Remaining(stack)
    {
      var n := |stack| - 1;
      var top := stack[n];
      m := top.mod.children[top.next];
      DescendLaw(stack, stack[..n], top, m);
      stack := stack[..n] + [Frame(top.mod, top.next + 1)] + [Frame(m, 0)];
    }
  }

  ghost predicate StackOk(stack: seq<Frame>) { forall i | 0 <= i < |stack| :: stack[i].next <= |stack[i].mod.children| }

  lemma {:induction false} DescendLaw(stack: seq<Frame>, below: seq<Frame>, top: Frame, m: Module)
    requires StackOk(below) && stack == below + [top] && top.next < |top.mod.children|
    requires m == top.mod.children[top.next]
    ensures StackOk(below + [Frame(top.mod, top.next + 1)] + [Frame(m, 0)])
    ensures Remaining(stack) == [m] + Remaining(below + [Frame(top.mod, top.next + 1)] + [Frame(m, 0)])
  {
    var lower := below + [Frame(top.mod, top.next + 1)];
    var higher := lower + [Frame(m, 0)];
    var rest, low := top.mod.children[top.next..], Remaining(below);
    assert stack[..|stack| - 1] == below && lower[..|below|] == below && higher[..|lower|] == lower;
    assert rest[0] == m && rest[1..] == top.mod.children[top.next + 1..] && m.children[0..] == m.children;
    calc {
      Remaining(stack);
      Below(rest) + low;
      Preorder(m) + Below(rest[1..]) + low;
      [m] + Below(m.children) + Below(rest[1..]) + low;
      [m] + (Below(m.children) + (Below(rest[1..]) + low));
      [m] + (Below(m.children) + Remaining(lower));
      [m] + Remaining(higher);
    }
  }

  // ---- The whitelist ----

  datatype Trie = Trie(children: map<string, Trie>, isEnd: bool)

  const EMPTY_TRIE := Trie(map[], false)

  /** `SuffixTrie::insert`, from the last element of the path to the first. */
  function TrieInsert(t: Trie, path: Path): Trie
    decreases |path|
  {
    if path == [] then t.(isEnd := true)
    else
      var n := |path| - 1;
      var child := if path[n] in t.children then t.children[path[n]] else EMPTY_TRIE;
      t.(children := t.children[path[n] := TrieInsert(child, path[..n])])
  }

  /** Whether the path is in the trie. */
  predicate InTrie(t: Trie, path: Path)
    decreases |path|
  {
    if path == [] then t.isEnd
    else var n := |path| - 1; path[n] in t.children && InTrie(t.children[path[n]], path[..n])
  }

  /** `matches`. */
  method Matches(t: Trie, path: Path) returns (r: bool)
    ensures r == InTrie(t, path)
  {
    var cur, i := t, |path|;
    assert path[..i] == path;
    while i > 0
      invariant i <= |path| && InTrie(cur, path[..i]) == InTrie(t, path)
    {
      assert path[..i][..i - 1] == path[..i - 1];
      if path[i - 1] !in cur.children { return false; }
      cur, i := cur.children[path[i - 1]], i - 1;
    }
    return cur.isEnd;
  }

  /** `contains`: whether some suffix of the path, not empty, is in the trie. */
  method Contains(t: Trie, path: Path) returns (r: bool)
    ensures r <==> exists k :: 0 <= k < |path| && InTrie(t, path[k..])
  {
    var cur, i := t, |path|;
    forall k | 0 <= k < i ensures PartIn(t, path, k, |path|) == PartIn(cur, path, k, i) {}
    while i > 0
      invariant 0 <= i <= |path| && forall k | 0 <= k < i :: PartIn(t, path, k, |path|) == PartIn(cur, path, k, i)
      invariant forall k | i <= k < |path| :: !PartIn(t, path, k, |path|)
    {
      forall k | 0 <= k < i
        ensures PartIn(cur, path, k, i)
             == (path[i - 1] in cur.children && PartIn(cur.children[path[i - 1]], path, k, i - 1))
      {
        PartStep(cur, path, k, i);
      }
      if path[i - 1] !in cur.children {
        NoPart(t, path);
        return false;
      }
      cur, i := cur.children[path[i - 1]], i - 1;
      assert path[i..i] == [];
      if cur.isEnd {
        assert PartIn(t, path, i, |path|) && path[i..|path|] == path[i..];
        return true;
      }
    }
    NoPart(t, path);
    return false;
  }

  predicate PartIn(t: Trie, path: Path, k: nat, i: nat) { k <= i <= |path| && InTrie(t, path[k..i]) }

  lemma {:induction false} PartStep(t: Trie, path: Path, k: nat, i: nat)
    requires k < i <= |path|
    ensures PartIn(t, path, k, i) == (path[i - 1] in t.children && PartIn(t.children[path[i - 1]], path, k, i - 1))
  {
    var part := path[k..i];
    assert part[..|part| - 1] == path[k..i - 1] && part[|part| - 1] == path[i - 1];
  }

  lemma {:induction false} NoPart(t: Trie, path: Path)
    requires forall k | 0 <= k < |path| :: !PartIn(t, path, k, |path|)
    ensures !exists k :: 0 <= k < |path| && InTrie(t, path[k..])
  {
    forall k | 0 <= k < |path| ensures !InTrie(t, path[k..]) {
      assert !PartIn(t, path, k, |path|) && path[k..|path|] == path[k..];
    }
  }

  lemma {:induction false} TrieInsertIs(t: Trie, path: Path, q: Path)
    ensures InTrie(TrieInsert(t, path), q) <==> q == path || InTrie(t, q)
    decreases |path|
  {
    if path != [] && q != [] {
      var n, m := |path| - 1, |q| - 1;
      if path[n] == q[m] {
        var child := if path[n] in t.children then t.children[path[n]] else EMPTY_TRIE;
        TrieInsertIs(child, path[..n], q[..m]);
        if q[..m] == path[..n] { assert q == q[..m] + [q[m]] && path == path[..n] + [path[n]]; }
        if path[n] !in t.children { NotInEmpty(q[..m]); }
      }
    }
  }

  lemma {:induction false} NotInEmpty(q: Path)
    ensures !InTrie(EMPTY_TRIE, q)
  {
  }

  /** `from_paths`. */
  method FromPaths(paths: seq<Path>) returns (t: Trie)
    ensures forall q :: InTrie(t, q) <==> q in paths
  {
    t := EMPTY_TRIE;
    forall q ensures !InTrie(t, q) { NotInEmpty(q); }
    for i := 0 to |paths|
      invariant forall q :: InTrie(t, q) <==> q in paths[..i]
    {
      forall q ensures InTrie(TrieInsert(t, paths[i]), q) <==> q in paths[..i + 1] { TrieInsertIs(t, paths[i], q); }
      t := TrieInsert(t, paths[i]);
    }
  }

  /** `ends_with`. */
  method EndsWith(path: Path, other: Path) returns (r: bool)
    ensures r <==> IsSuffix(path, other)
  {
    if |path| < |other| { return false; }
    for i := 0 to |other|
      invariant path[|path| - i..] == other[|other| - i..]
    {
      var a, b := path[|path| - 1 - i], other[|other| - 1 - i];
      if a != b {
        assert path[|path| - |other|..][|other| - 1 - i] == a;
        return false;
      }
      assert path[|path| - (i + 1)..] == [a] + path[|path| - i..];
      assert other[|other| - (i + 1)..] == [b] + other[|other| - i..];
    }
    assert other[|other| - |other|..] == other;
    return true;
  }

  predicate IsSuffix(path: Path, other: Path) { |other| <= |path| && path[|path| - |other|..] == other }

  /** With a whitelist, a path is taken exactly when it ends with one of the listed paths. */
  lemma {:induction false} ContainsIsEndsWith(t: Trie, paths: seq<Path>, path: Path)
    requires (forall q :: InTrie(t, q) <==> q in paths) && forall i | 0 <= i < |paths| :: paths[i] != []
    ensures (exists k :: 0 <= k < |path| && InTrie(t, path[k..]))
       <==> exists i :: 0 <= i < |paths| && IsSuffix(path, paths[i])
  {
    if k :| 0 <= k < |path| && InTrie(t, path[k..]) {
      var i :| 0 <= i < |paths| && paths[i] == path[k..];
      assert IsSuffix(path, paths[i]);
    }
    if i :| 0 <= i < |paths| && IsSuffix(path, paths[i]) {
      assert paths[i] in paths && InTrie(t, path[|path| - |paths[i]|..]);
    }
  }

  /** The documentation has the rule the other way round. The two rules both take a test for a listed path only if the
      test's path is the listed path itself. */
  lemma SuffixBothWays(path: Path, listed: Path)
    ensures IsSuffix(path, listed) && IsSuffix(listed, path) <==> path == listed
  {
    assert path[0..] == path && listed[0..] == listed;
  }

  /** The test `a::b` is run for the listed path `b`, which does not end with `a::b`. */
  lemma RulesDiffer(test: Test)
    requires test.modulePath == ["a"] && test.fnName == "b"
    ensures Listed(Some([["b"]]), test) && !IsSuffix(["b"], test.modulePath + [test.fnName])
  {
    assert (["a"] + ["b"])[1..] == ["b"] && [["b"]][0] == ["b"];
    assert IsSuffix(test.modulePath + [test.fnName], [["b"]][0]);
  }

  // ---- The runner ----

  /** Whether a test is run. */
  ghost predicate Selected(whitelist: Option<Trie>, test: Test) {
    whitelist.Some? ==>
      var path := test.modulePath + [test.fnName];
      exists k :: 0 <= k < |path| && InTrie(whitelist.value, path[k..])
  }

  /** The tests that are run and pass, those that are run and fail, and the number of those that are not run. */
  ghost function Passed(tests: seq<Test>, whitelist: Option<Trie>, run: Test -> bool): nat {
    if tests == [] then 0
    else var n := |tests| - 1;
         Passed(tests[..n], whitelist, run) + if Selected(whitelist, tests[n]) && run(tests[n]) then 1 else 0
  }

  ghost function Failed(tests: seq<Test>, whitelist: Option<Trie>, run: Test -> bool): seq<Test> {
    if tests == [] then []
    else var n := |tests| - 1;
         Failed(tests[..n], whitelist, run) + if Selected(whitelist, tests[n]) && !run(tests[n]) then [tests[n]] else []
  }

  ghost function Filtered(tests: seq<Test>, whitelist: Option<Trie>): nat {
    if tests == [] then 0
    else var n := |tests| - 1; Filtered(tests[..n], whitelist) + if Selected(whitelist, tests[n]) then 0 else 1
  }

  lemma {:induction false} EveryTestCounts(tests: seq<Test>, whitelist: Option<Trie>, run: Test -> bool)
    ensures Passed(tests, whitelist, run) + |Failed(tests, whitelist, run)| + Filtered(tests, whitelist) == |tests|
  {
    if tests != [] { EveryTestCounts(tests[..|tests| - 1], whitelist, run); }
  }

  /** A crate whose counts are right: every test is below the root, and the root counts them all. */
  ghost predicate CrateOk(root: Module) { root.tests == [] && root.total == |TestsOf(Below(root.children))| }

  /** `add_ktest` keeps the counts right, since a module path has at least one element. */
  lemma {:induction false} AddKeepsCrateOk(root: Module, path: Path, test: Test)
    requires CrateOk(root) && path != []
    ensures CrateOk(Insert(root, path, test))
    ensures TestsBelow(Insert(root, path, test).children) == TestsBelow(root.children) + multiset{test}
  {
    InsertAddsOne(root, path, test);
    RootParts(root);
    RootParts(Insert(root, path, test));
  }

  lemma {:induction false} RootParts(root: Module)
    requires root.tests == []
    ensures AllTests(root) == TestsBelow(root.children) && Size(root) == |TestsOf(Below(root.children))|
  {
    ModuleParts(root);
    assert multiset(root.tests) == multiset{};
  }

  /** The tests of a package at a path. */
  function Held(crates: map<string, Module>, package: string, path: Path): seq<Test> {
    if package in crates then TestsAt(crates[package], path) else []
  }

  function Chosen(tests: seq<Test>, package: string, path: Path): seq<Test> {
    if tests == [] then []
    else
      var n := |tests| - 1;
      Chosen(tests[..n], package, path) +
      if tests[n].package == package && tests[n].modulePath == path then [tests[n]] else []
  }

  /** The tests of a package, wherever they are. */
  ghost function Registered(crates: map<string, Module>, package: string): multiset<Test> {
    if package in crates then TestsBelow(crates[package].children) else multiset{}
  }

  function OfPackage(tests: seq<Test>, package: string): seq<Test> {
    if tests == [] then []
    else var n := |tests| - 1; OfPackage(tests[..n], package) + if tests[n].package == package then [tests[n]] else []
  }

  /** The tests of a package, by path and as a whole, are those of the given ones that belong to it. */
  ghost predicate HoldsOf(crates: map<string, Module>, tests: seq<Test>, package: string) {
    && (forall q :: Held(crates, package, q) == Chosen(tests, package, q))
    && Registered(crates, package) == multiset(OfPackage(tests, package))
    && (package in crates <==> OfPackage(tests, package) != [])
  }

  ghost predicate Holds(crates: map<string, Module>, tests: seq<Test>) { forall p :: HoldsOf(crates, tests, p) }

  /** What `add_ktest` does to a package. */
  ghost predicate AddedTo(before: map<string, Module>, after: map<string, Module>, test: Test, package: string) {
    if package != test.package
    then (package in after <==> package in before) && (package in after ==> after[package] == before[package])
    else
      && package in after
      && (forall q :: Held(after, package, q) == Held(before, package, q) + if q == test.modulePath then [test] else [])
      && Registered(after, package) == Registered(before, package) + multiset{test}
  }

  ghost predicate OneAdded(before: map<string, Module>, after: map<string, Module>, test: Test) {
    forall p :: AddedTo(before, after, test, p)
  }

  lemma {:induction false} HoldsOneMore(before: map<string, Module>, after: map<string, Module>, tests: seq<Test>,
                                        test: Test)
    requires Holds(before, tests) && OneAdded(before, after, test)
    ensures Holds(after, tests + [test])
  {
    forall p ensures HoldsOf(after, tests + [test], p) {
      assert HoldsOf(before, tests, p) && AddedTo(before, after, test, p);
      PackageOneMore(before, after, tests, test, p);
    }
  }

  lemma {:induction false} PackageOneMore(before: map<string, Module>, after: map<string, Module>, tests: seq<Test>,
                                          test: Test, p: string)
    requires HoldsOf(before, tests, p) && AddedTo(before, after, test, p)
    ensures HoldsOf(after, tests + [test], p)
  {
    forall q ensures Held(after, p, q) == Chosen(tests + [test], p, q) {
      HeldOneMore(before, after, tests, test, p, q);
    }
    RegisteredOneMore(before, after, tests, test, p);
  }

  lemma {:induction false} HeldOneMore(before: map<string, Module>, after: map<string, Module>, tests: seq<Test>,
                                       test: Test, p: string, q: Path)
    requires HoldsOf(before, tests, p) && AddedTo(before, after, test, p)
    ensures Held(after, p, q) == Chosen(tests + [test], p, q)
  {
    ChosenMore(tests, test, p, q);
    assert Held(before, p, q) == Chosen(tests, p, q);
  }

  lemma {:induction false} RegisteredOneMore(before: map<string, Module>, after: map<string, Module>, tests: seq<Test>,
                                             test: Test, p: string)
    requires HoldsOf(before, tests, p) && AddedTo(before, after, test, p)
    ensures Registered(after, p) == multiset(OfPackage(tests + [test], p))
    ensures p in after <==> OfPackage(tests + [test], p) != []
  {
    ChosenMore(tests, test, p, []);
  }

  lemma {:induction false} ChosenMore(tests: seq<Test>, test: Test, p: string, q: Path)
    ensures Chosen(tests + [test], p, q) ==
            Chosen(tests, p, q) + if test.package == p && test.modulePath == q then [test] else []
    ensures OfPackage(tests + [test], p) == OfPackage(tests, p) + if test.package == p then [test] else []
    ensures multiset(OfPackage(tests + [test], p)) ==
            multiset(OfPackage(tests, p)) + if test.package == p then multiset{test} else multiset{}
  {
    var more := tests + [test];
    assert more[..|more| - 1] == tests && more[|more| - 1] == test;
  }

  class KtestTree {
    var total: nat
    var crates: map<string, Module>

    ghost predicate Valid()
      reads this
    {
      forall p | p in crates :: CrateOk(crates[p]) && Ordered(crates[p]) && AllDoubled(crates[p].children)
    }

    constructor ()
      ensures Valid() && total == 0 && crates == map[]
    {
      total, crates := 0, map[];
    }

    /** `add_ktest`. */
    method AddKtest(test: Test)
      requires Valid() && test.modulePath != []
      modifies this
      ensures Valid() && total == old(total) + 1
      ensures OneAdded(old(crates), crates, test)
    {
      total := total + 1;
      var root := if test.package in crates then crates[test.package] else NewModule(test.package);
      NewCrate(test.package);
      AddKeepsCrateOk(root, test.modulePath, test);
      InsertKeepsOrder(root, test.modulePath, test);
      InsertKeepsDoubled(root, test.modulePath, test);
      crates := crates[test.package := Insert(root, test.modulePath, test)];
      forall p ensures AddedTo(old(crates), crates, test, p) { AddedAll(old(crates), test, root, p); }
    }
  }

  lemma {:induction false} AddedAll(crates: map<string, Module>, test: Test, root: Module, p: string)
    requires root == if test.package in crates then crates[test.package] else NewModule(test.package)
    requires CrateOk(root) && Ordered(root) && test.modulePath != []
    ensures AddedTo(crates, crates[test.package := Insert(root, test.modulePath, test)], test, p)
  {
    if p == test.package {
      NewCrate(p);
      AddKeepsCrateOk(root, test.modulePath, test);
      forall q
        ensures TestsAt(Insert(root, test.modulePath, test), q)
             == Held(crates, p, q) + if q == test.modulePath then [test] else []
      {
        InsertGoesToPath(root, test.modulePath, test, q);
        NothingInNew(p, q);
      }
    }
  }

  lemma {:induction false} NewCrate(name: string)
    ensures CrateOk(NewModule(name)) && Ordered(NewModule(name)) && TestsBelow(NewModule(name).children) == multiset{}
  {
    assert Below([]) == [];
  }

  /** `KtestTree::from_iter`: every test is in the crate of its package, at its path, in the order given, and the crates
      have no others. */
  method FromIter(tests: seq<Test>) returns (tree: KtestTree)
    requires forall i | 0 <= i < |tests| :: tests[i].modulePath != []
    ensures tree.Valid() && tree.total == |tests| && Holds(tree.crates, tests)
  {
    tree := new KtestTree();
    for i := 0 to |tests|
      invariant fresh(tree) && tree.Valid() && tree.total == i && Holds(tree.crates, tests[..i])
    {
      ghost var before := tree.crates;
      tree.AddKtest(tests[i]);
      HoldsOneMore(before, tree.crates, tests[..i], tests[i]);
      assert tests[..i + 1] == tests[..i] + [tests[i]];
    }
    assert tests[..|tests|] == tests;
  }

  /** `run_crate_ktests`: its final assertion cannot fail. */
  method RunCrate(root: Module, whitelist: Option<Trie>, run: Test -> bool)
    returns (passed: nat, failed: seq<Test>, filtered: nat)
    requires CrateOk(root)
    ensures passed == Passed(TestsOf(Below(root.children)), whitelist, run)
    ensures failed == Failed(TestsOf(Below(root.children)), whitelist, run)
    ensures filtered == Filtered(TestsOf(Below(root.children)), whitelist)
    ensures passed + |failed| + filtered == root.total
  {
    ghost var all := TestsOf(Below(root.children));
    ghost var done: seq<Test> := [];
    passed, failed, filtered := 0, [], 0;
    var iter := new CrateIter(root);
    var m := iter.Next();
    while m.Some?
      invariant fresh(iter) && iter.Valid()
      invariant all == done + (if m.Some? then m.value.tests else []) + TestsOf(Remaining(iter.stack))
      invariant m.None? ==> Remaining(iter.stack) == []
      invariant passed == Passed(done, whitelist, run) && failed == Failed(done, whitelist, run)
      invariant filtered == Filtered(done, whitelist)
      decreases |Remaining(iter.stack)| + if m.Some? then 1 else 0
    {
      var p, f, x := RunModule(m.value.tests, whitelist, run, done, passed, failed, filtered);
      passed, failed, filtered := p, f, x;
      done := done + m.value.tests;
      m := iter.Next();
    }
    assert done + [] + TestsOf([]) == done;
    EveryTestCounts(all, whitelist, run);
  }

  // ---- The whole run ----

  /** Whether a test is run for a list of paths. */
  predicate Listed(paths: Option<seq<Path>>, test: Test) {
    paths.Some? ==> exists i :: 0 <= i < |paths.value| && IsSuffix(test.modulePath + [test.fnName], paths.value[i])
  }

  /** `run_ktests`: it answers Ok exactly when every registered test that is to be run passes, although it stops after
      the first crate with a failure. */
  method RunKtests(tests: seq<Test>, paths: Option<seq<Path>>, run: Test -> bool) returns (ok: bool)
    requires forall i | 0 <= i < |tests| :: tests[i].modulePath != []
    requires paths.Some? ==> forall i | 0 <= i < |paths.value| :: paths.value[i] != []
    ensures ok <==> forall t | t in tests && Listed(paths, t) :: run(t)
  {
    var whitelist: Option<Trie> := None;
    if paths.Some? {
      var trie := FromPaths(paths.value);
      whitelist := Some(trie);
    }
    forall t: Test ensures Selected(whitelist, t) <==> Listed(paths, t) { SelectedIsListed(whitelist, paths, t); }
    var tree := FromIter(tests);
    var names := AscendingNames(tree.crates.Keys);
    ok := RunCrates(tree.crates, names, tests, whitelist, run);
  }

  lemma {:induction false} SelectedIsListed(whitelist: Option<Trie>, paths: Option<seq<Path>>, test: Test)
    requires whitelist.Some? <==> paths.Some?
    requires paths.Some? ==> forall q :: InTrie(whitelist.value, q) <==> q in paths.value
    requires paths.Some? ==> forall i | 0 <= i < |paths.value| :: paths.value[i] != []
    ensures Selected(whitelist, test) <==> Listed(paths, test)
  {
    if paths.Some? { ContainsIsEndsWith(whitelist.value, paths.value, test.modulePath + [test.fnName]); }
  }

  /** The loop over the crates, in the order of their names. */
  method RunCrates(crates: map<string, Module>, names: seq<string>, ghost tests: seq<Test>, whitelist: Option<Trie>,
                   run: Test -> bool) returns (ok: bool)
    requires (forall p | p in crates :: CrateOk(crates[p])) && Holds(crates, tests)
    requires forall p :: p in names <==> p in crates
    ensures ok <==> AllPass(tests, whitelist, run)
  {
    for i := 0 to |names|
      invariant forall k | 0 <= k < i :: PackagePasses(tests, names[k], whitelist, run)
    {
      assert names[i] in names;
      var passed := RunPackage(crates, names[i], tests, whitelist, run);
      if !passed {
        SomePackageFails(tests, names[i], whitelist, run);
        return false;
      }
    }
    AllPackagesPass(crates, tests, names, whitelist, run);
    return true;
  }

  method RunPackage(crates: map<string, Module>, name: string, ghost tests: seq<Test>, whitelist: Option<Trie>,
                    run: Test -> bool) returns (ok: bool)
    requires name in crates && CrateOk(crates[name]) && Holds(crates, tests)
    ensures ok <==> PackagePasses(tests, name, whitelist, run)
  {
    var passed, failed, filtered := RunCrate(crates[name], whitelist, run);
    CrateVerdict(crates, tests, name, whitelist, run);
    return failed == [];
  }

  ghost predicate AllPass(tests: seq<Test>, whitelist: Option<Trie>, run: Test -> bool) {
    forall t | t in tests && Selected(whitelist, t) :: run(t)
  }

  ghost predicate PackagePasses(tests: seq<Test>, package: string, whitelist: Option<Trie>, run: Test -> bool) {
    AllPass(OfPackage(tests, package), whitelist, run)
  }

  lemma {:induction false} NoneFailed(tests: seq<Test>, whitelist: Option<Trie>, run: Test -> bool)
    ensures Failed(tests, whitelist, run) == [] <==> AllPass(tests, whitelist, run)
  {
    if tests != [] {
      var n := |tests| - 1;
      NoneFailed(tests[..n], whitelist, run);
      assert tests == tests[..n] + [tests[n]];
    }
  }

  /** A crate has a failure exactly when its package has one. */
  lemma {:induction false} CrateVerdict(crates: map<string, Module>, tests: seq<Test>, p: string,
                                        whitelist: Option<Trie>, run: Test -> bool)
    requires Holds(crates, tests) && p in crates
    ensures Failed(TestsOf(Below(crates[p].children)), whitelist, run) == []
       <==> PackagePasses(tests, p, whitelist, run)
  {
    assert HoldsOf(crates, tests, p);
    var all := TestsOf(Below(crates[p].children));
    NoneFailed(all, whitelist, run);
    SameMembers(all, OfPackage(tests, p));
  }

  lemma SameMembers(a: seq<Test>, b: seq<Test>)
    requires multiset(a) == multiset(b)
    ensures forall t :: t in a <==> t in b
  {
    forall t ensures t in a <==> t in b { assert t in multiset(a) <==> t in multiset(b); }
  }

  lemma {:induction false} InPackage(tests: seq<Test>, p: string, t: Test)
    ensures t in OfPackage(tests, p) <==> t in tests && t.package == p
  {
    if tests != [] {
      var n := |tests| - 1;
      InPackage(tests[..n], p, t);
      assert tests == tests[..n] + [tests[n]];
    }
  }

  lemma {:induction false} SomePackageFails(tests: seq<Test>, p: string, whitelist: Option<Trie>, run: Test -> bool)
    requires !PackagePasses(tests, p, whitelist, run)
    ensures !AllPass(tests, whitelist, run)
  {
    var t :| t in OfPackage(tests, p) && Selected(whitelist, t) && !run(t);
    InPackage(tests, p, t);
  }

  lemma {:induction false} AllPackagesPass(crates: map<string, Module>, tests: seq<Test>, names: seq<string>,
                                           whitelist: Option<Trie>, run: Test -> bool)
    requires Holds(crates, tests) && forall p :: p in names <==> p in crates
    requires forall k | 0 <= k < |names| :: PackagePasses(tests, names[k], whitelist, run)
    ensures AllPass(tests, whitelist, run)
  {
    forall t | t in tests && Selected(whitelist, t) ensures run(t) {
      InPackage(tests, t.package, t);
      assert HoldsOf(crates, tests, t.package);
      var k :| 0 <= k < |names| && names[k] == t.package;
      assert PackagePasses(tests, names[k], whitelist, run);
    }
  }

  /** The keys of the map of crates in ascending order, as its iterator gives them. */
  method AscendingNames(keys: set<string>) returns (names: seq<string>)
    ensures (forall p :: p in names <==> p in keys) && forall i, j | 0 <= i < j < |names| :: Less(names[i], names[j])
  {
    var rest := keys;
    names := [];
    while rest != {}
      invariant forall p :: p in keys <==> p in names || p in rest
      invariant forall i, j | 0 <= i < j < |names| :: Less(names[i], names[j])
      invariant forall i, p | 0 <= i < |names| && p in rest :: Less(names[i], p)
      decreases |rest|
    {
      ghost var least := LeastName(rest);
      var p :| p in rest && forall q | q in rest && q != p :: Less(p, q);
      names, rest := names + [p], rest - {p};
    }
  }

  lemma {:induction false} LeastName(names: set<string>) returns (p: string)
    requires names != {}
    ensures p in names && forall q | q in names && q != p :: Less(p, q)
    decreases |names|
  {
    p :| p in names;
    if names != {p} {
      var rest := names - {p};
      assert rest != {};
      var least := LeastName(rest);
      LessOrder(p, least);
      if Less(least, p) {
        p := least;
      } else {
        forall q | q in names && q != p ensures Less(p, q) { if q != least { LessTransitive(p, least, q); } }
      }
    }
  }

  /** The totals of the crates, however they are listed, add up to the total of the tree. */
  function SumOfTotals(crates: map<string, Module>, names: seq<string>): nat
    requires forall i | 0 <= i < |names| :: names[i] in crates
  {
    if names == [] then 0 else crates[names[0]].total + SumOfTotals(crates, names[1..])
  }

  lemma {:induction false} TotalsAddUp(crates: map<string, Module>, names: seq<string>, tests: seq<Test>)
    requires Holds(crates, tests) && forall p | p in crates :: CrateOk(crates[p])
    requires forall p :: p in names <==> p in crates
    requires forall i, j | 0 <= i < j < |names| :: names[i] != names[j]
    ensures SumOfTotals(crates, names) == |tests|
  {
    SumIsCount(crates, names, tests);
    forall t | t in tests ensures t.package in names {
      InPackage(tests, t.package, t);
      assert HoldsOf(crates, tests, t.package);
    }
    CountAll(names, tests);
  }

  function CountOf(names: seq<string>, tests: seq<Test>): nat {
    if names == [] then 0 else |OfPackage(tests, names[0])| + CountOf(names[1..], tests)
  }

  lemma {:induction false} SumIsCount(crates: map<string, Module>, names: seq<string>, tests: seq<Test>)
    requires Holds(crates, tests) && forall p | p in crates :: CrateOk(crates[p])
    requires forall i | 0 <= i < |names| :: names[i] in crates
    ensures SumOfTotals(crates, names) == CountOf(names, tests)
  {
    if names != [] {
      var p := names[0];
      assert HoldsOf(crates, tests, p) && CrateOk(crates[p]);
      assert |TestsBelow(crates[p].children)| == |multiset(OfPackage(tests, p))|;
      SumIsCount(crates, names[1..], tests);
    }
  }

  lemma {:induction false} CountAll(names: seq<string>, tests: seq<Test>)
    requires forall i, j | 0 <= i < j < |names| :: names[i] != names[j]
    requires forall t | t in tests :: t.package in names
    ensures CountOf(names, tests) == |tests|
  {
    if tests == [] {
      CountNone(names);
    } else {
      var n := |tests| - 1;
      CountAll(names, tests[..n]);
      CountOneMore(names, tests, n);
      assert tests[n] in tests;
    }
  }

  lemma {:induction false} CountNone(names: seq<string>)
    ensures CountOf(names, []) == 0
  {
    if names != [] { CountNone(names[1..]); }
  }

  lemma {:induction false} CountOneMore(names: seq<string>, tests: seq<Test>, n: nat)
    requires |tests| == n + 1 && forall i, j | 0 <= i < j < |names| :: names[i] != names[j]
    ensures CountOf(names, tests) == CountOf(names, tests[..n]) + if tests[n].package in names then 1 else 0
  {
    if names != [] {
      CountOneMore(names[1..], tests, n);
      assert names == [names[0]] + names[1..];
    }
  }

  /** The loop over the tests of one module, on top of what was counted for `done`. */
  method RunModule(tests: seq<Test>, whitelist: Option<Trie>, run: Test -> bool, ghost done: seq<Test>, passed0: nat,
                   failed0: seq<Test>, filtered0: nat) returns (passed: nat, failed: seq<Test>, filtered: nat)
    requires passed0 == Passed(done, whitelist, run) && failed0 == Failed(done, whitelist, run)
    requires filtered0 == Filtered(done, whitelist)
    ensures passed == Passed(done + tests, whitelist, run) && failed == Failed(done + tests, whitelist, run)
    ensures filtered == Filtered(done + tests, whitelist)
  {
    passed, failed, filtered := passed0, failed0, filtered0;
    assert done + tests[..0] == done;
    for i := 0 to |tests|
      invariant passed == Passed(done + tests[..i], whitelist, run)
      invariant failed == Failed(done + tests[..i], whitelist, run)
      invariant filtered == Filtered(done + tests[..i], whitelist)
    {
      var test := tests[i];
      ghost var more := done + tests[..i + 1];
      assert more[..|more| - 1] == done + tests[..i] && more[|more| - 1] == test;
      var selected := true;
      if whitelist.Some? {
        selected := Contains(whitelist.value, test.modulePath + [test.fnName]);
      }
      if !selected {
        filtered := filtered + 1;
      } else if run(test) {
        passed := passed + 1;
      } else {
        failed := failed + [test];
      }
    }
    assert tests[..|tests|] == tests;
  }
}
