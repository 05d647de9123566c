/** Path resolution: what a path means, and the loop of `FsResolver` that computes it by rewriting strings. */
module FsResolver {
  import opened Options

  type Entry = nat

  datatype Errno = ENOENT | ENOTDIR | EACCES | ENAMETOOLONG | ELOOP | EBADF | EISDIR

  datatype Result<T> = Ok(value: T) | Err(error: Errno)

  datatype Kind = Dir | SymLink | Other

  /** A file system that does not change during a lookup. */
  datatype Fs = Fs(root: Entry, kind: Entry -> Kind, executable: Entry -> bool, parent: Entry -> Entry,
                   child: (Entry, string) -> Result<Entry>, link: Entry -> Result<string>)

  const PATH_MAX := 4096
  const NAME_MAX := 255
  const SYMLINKS_MAX := 40

  /** `Dentry::lookup`. */
  function Child(fs: Fs, d: Entry, name: string): Result<Entry> {
    if fs.kind(d) != Dir then Err(ENOTDIR)
    else if !fs.executable(d) then Err(EACCES)
    else if |name| > NAME_MAX then Err(ENAMETOOLONG)
    else if name == "." then Ok(d)
    else if name == ".." then Ok(fs.parent(d))
    else fs.child(d, name)
  }

  /** Every name of up to 255 characters is answered by the directory itself, and no longer one is; the two special
      names are never looked for there. What is no directory, or may not be searched, answers nothing. */
  lemma ChildAnswers(fs: Fs, d: Entry, name: string)
    ensures Child(fs, d, name).Ok? ==> fs.kind(d) == Dir && fs.executable(d) && |name| <= 255
    ensures fs.kind(d) != Dir ==> Child(fs, d, name) == Err(ENOTDIR)
    ensures fs.kind(d) == Dir && !fs.executable(d) ==> Child(fs, d, name) == Err(EACCES)
    ensures fs.kind(d) == Dir && fs.executable(d) ==>
              && (|name| > 255 ==> Child(fs, d, name) == Err(ENAMETOOLONG))
              && (|name| <= 255 && name != "." && name != ".." ==> Child(fs, d, name) == fs.child(d, name))
              && Child(fs, d, ".") == Ok(d) && Child(fs, d, "..") == Ok(fs.parent(d))
  {
  }

  // ---- What a path means ----

  /** The components of a path: the maximal runs of characters other than slashes. */
  function Names(s: string): seq<string> {
    if s == "" then []
    else if s[0] == '/' then Names(s[1..])
    else [s[..Slash(s)]] + Names(s[Slash(s)..])
  }

  /** The index of the first slash, or the length. */
  function Slash(s: string): (k: nat)
    ensures k <= |s| && (k < |s| ==> s[k] == '/') && (s != "" && s[0] != '/' ==> k > 0)
  {
    if s == "" || s[0] == '/' then 0 else 1 + Slash(s[1..])
  }

  predicate StartsSlash(s: string) { s != "" && s[0] == '/' }

  predicate EndsSlash(s: string) { s != "" && s[|s| - 1] == '/' }

  /** Resolves the components one after the other. A symbolic link stands for what its own path resolves to,
      and that must be a directory unless it comes last. `budget` is how many links may still be followed;
      what is left of it is part of the result. */
  function Walk(fs: Fs, d: Entry, names: seq<string>, dir: bool, follow: bool, budget: nat): (r: Result<(Entry, nat)>)
    ensures r.Ok? ==> r.value.1 <= budget
    decreases budget, |names|
  {
    if names == [] then Ok((d, budget))
    else
      var rest, mustBeDir := names[1..], |names| > 1 || dir;
      match Child(fs, d, names[0])
      case Err(e) => Err(e)
      case Ok(next) =>
        if fs.kind(next) == SymLink && (follow || rest != []) then
          if budget == 0 then Err(ELOOP)
          else match fs.link(next)
            case Err(e) => Err(e)
            case Ok(path) =>
              if path == "" then Err(ENOENT)
              else match Walk(fs, if StartsSlash(path) then fs.root else d, Names(path),
                              EndsSlash(path) || mustBeDir, true, budget - 1)
                case Err(e) => Err(e)
                case Ok(target) => Walk(fs, target.0, rest, dir, follow, target.1)
        else if mustBeDir && fs.kind(next) != Dir then Err(ENOTDIR)
        else Walk(fs, next, rest, dir, follow, budget)
  }

  /** The meaning of a path, without what is left of the budget. */
  function Meaning(fs: Fs, d: Entry, path: string, follow: bool, budget: nat): Result<Entry> {
    match Walk(fs, d, Names(path), EndsSlash(path), follow, budget)
    case Err(e) => Err(e)
    case Ok(r) => Ok(r.0)
  }

  /** A path is resolved by resolving its front part, as a directory, and the rest from there. */
  lemma {:induction false} WalkSplits(fs: Fs, d: Entry, front: seq<string>, back: seq<string>, dir: bool, follow: bool,
                                      budget: nat)
    requires back != []
    ensures Walk(fs, d, front + back, dir, follow, budget) ==
            match Walk(fs, d, front, true, true, budget)
            case Err(e) => Err(e)
            case Ok(r) => Walk(fs, r.0, back, dir, follow, r.1)
    decreases budget, |front|
  {
    if front == [] {
      assert front + back == back;
    } else {
      var next, rest := Child(fs, d, front[0]), front[1..];
      assert (front + back)[1..] == rest + back;
      if next.Ok? {
        if fs.kind(next.value) == SymLink {
          if budget > 0 && fs.link(next.value).Ok? && fs.link(next.value).value != "" {
            var path := fs.link(next.value).value;
            var base := if StartsSlash(path) then fs.root else d;
            var target := Walk(fs, base, Names(path), EndsSlash(path) || true, true, budget - 1);
            if target.Ok? { WalkSplits(fs, target.value.0, rest, back, dir, follow, target.value.1); }
          }
        } else if fs.kind(next.value) == Dir {
          WalkSplits(fs, next.value, rest, back, dir, follow, budget);
        }
      }
    }
  }

  /** Asking for a directory only ever turns a success into a failure. */
  lemma {:induction false} WalkWithoutDir(fs: Fs, d: Entry, names: seq<string>, follow: bool, budget: nat)
    requires Walk(fs, d, names, true, follow, budget).Ok?
    ensures Walk(fs, d, names, false, follow, budget) == Walk(fs, d, names, true, follow, budget)
    decreases budget, |names|
  {
    if names != [] {
      var next, rest := Child(fs, d, names[0]).value, names[1..];
      if fs.kind(next) == SymLink && (follow || rest != []) {
        var path := fs.link(next).value;
        var base := if StartsSlash(path) then fs.root else d;
        var target := Walk(fs, base, Names(path), true, true, budget - 1).value;
        if !EndsSlash(path) && rest == [] { WalkWithoutDir(fs, base, Names(path), true, budget - 1); }
        WalkWithoutDir(fs, target.0, rest, follow, target.1);
      } else {
        WalkWithoutDir(fs, next, rest, follow, budget);
      }
    }
  }

  // ---- Strings ----

  /** `trim_start_matches('/')`. */
  function TrimStart(s: string): (t: string)
    ensures !StartsSlash(t) && |t| <= |s|
  {
    if StartsSlash(s) then TrimStart(s[1..]) else s
  }

  lemma {:induction false} TrimKeeps(s: string)
    ensures Names(TrimStart(s)) == Names(s)
    ensures TrimStart(s) != "" ==> Names(s) != [] && EndsSlash(TrimStart(s)) == EndsSlash(s)
    ensures TrimStart(s) == "" ==> Names(s) == [] && (s == "" || EndsSlash(s))
  {
    if StartsSlash(s) { TrimKeeps(s[1..]); }
  }

  lemma {:induction false} NamesOfJoin(a: string, b: string)
    ensures Names(a + "/" + b) == Names(a) + Names(b)
  {
    var s := a + "/" + b;
    if a == "" {
      assert s[1..] == b;
    } else if a[0] == '/' {
      assert s[1..] == a[1..] + "/" + b;
      NamesOfJoin(a[1..], b);
    } else {
      var k := Slash(a);
      SlashOfJoin(a, b);
      NamesOfJoin(a[k..], b);
      assert Names(s) == [a[..k]] + Names(a[k..] + "/" + b) by {
        assert s[0] == a[0] && s[..k] == a[..k] && s[k..] == a[k..] + "/" + b;
      }
      assert [a[..k]] + (Names(a[k..]) + Names(b)) == ([a[..k]] + Names(a[k..])) + Names(b);
    }
  }

  lemma {:induction false} SlashOfJoin(a: string, b: string)
    ensures Slash(a + "/" + b) == Slash(a)
  {
    if a != "" && a[0] != '/' {
      assert (a + "/" + b)[1..] == a[1..] + "/" + b;
      SlashOfJoin(a[1..], b);
    } else {
      assert (a + "/" + b)[0] == '/';
    }
  }

  // ---- The lookup loop ----

  /** `lookup_from_parent`: the loop that rewrites the remaining path at every link computes the path's meaning. */
  method LookupFromParent(fs: Fs, parent: Entry, path: string, follow: bool) returns (r: Result<Entry>)
    requires !StartsSlash(path)
    ensures r == if |path| > PATH_MAX then Err(ENAMETOOLONG) else Meaning(fs, parent, path, follow, SYMLINKS_MAX)
  {
    if |path| > PATH_MAX { return Err(ENAMETOOLONG); }
    r := LookupWithin(fs, parent, path, follow, SYMLINKS_MAX);
  }

  method LookupWithin(fs: Fs, parent: Entry, path: string, follow: bool, max: nat) returns (r: Result<Entry>)
    requires !StartsSlash(path)
    ensures r == Meaning(fs, parent, path, follow, max)
  {
    var follows, d: Entry, rel := 0, parent, path;
    while rel != ""
      invariant follows <= max && !StartsSlash(rel)
      invariant Meaning(fs, d, rel, follow, max - follows) == Meaning(fs, parent, path, follow, max)
      decreases max - follows, |rel|
    {
      var k := Slash(rel);
      var mustBeDir := k < |rel|;
      var name, remain := rel[..k], if mustBeDir then TrimStart(rel[k + 1..]) else "";
      FirstName(rel, remain);
      var next := Child(fs, d, name);
      if next.Err? { return Err(next.error); }
      if fs.kind(next.value) == SymLink && (follow || remain != "") {
        if follows >= max { return Err(ELOOP); }
        var link := fs.link(next.value);
        if link.Err? { return Err(link.error); }
        if link.value == "" { return Err(ENOENT); }
        var rewritten := link.value + (if remain != "" then "/" + remain else if mustBeDir then "/" else "");
        var base: Entry := if StartsSlash(rewritten) then fs.root else d;
        RewrittenMeans(fs, d, base, name, rel, remain, next.value, link.value, rewritten, follow, max - follows);
        d, rel, follows := base, TrimStart(rewritten), follows + 1;
      } else {
        if mustBeDir && fs.kind(next.value) != Dir { return Err(ENOTDIR); }
        PlainMeans(fs, d, rel, remain, next.value, follow, max - follows);
        d, rel := next.value, remain;
      }
    }
    return Ok(d);
  }

  /** Going on to a component that is not a link to be followed keeps the meaning. */
  lemma {:induction false} PlainMeans(fs: Fs, d: Entry, rel: string, remain: string, next: Entry, follow: bool,
                                      budget: nat)
    requires rel != "" && !StartsSlash(rel)
    requires remain == if Slash(rel) < |rel| then TrimStart(rel[Slash(rel) + 1..]) else ""
    requires Child(fs, d, rel[..Slash(rel)]) == Ok(next) && !(fs.kind(next) == SymLink && (follow || remain != ""))
    requires Slash(rel) < |rel| ==> fs.kind(next) == Dir
    ensures Meaning(fs, next, remain, follow, budget) == Meaning(fs, d, rel, follow, budget)
  {
    FirstName(rel, remain);
    PlainStep(fs, d, Names(rel), Names(remain), EndsSlash(rel), EndsSlash(remain), next, follow, budget);
  }

  /** The same on components. */
  lemma {:induction false} PlainStep(fs: Fs, d: Entry, names: seq<string>, rest: seq<string>, dir: bool, dir': bool,
                                     next: Entry, follow: bool, budget: nat)
    requires names != [] && rest == names[1..] && Child(fs, d, names[0]) == Ok(next) && (rest != [] ==> dir' == dir)
    requires !(fs.kind(next) == SymLink && (follow || rest != [])) && (rest != [] || dir ==> fs.kind(next) == Dir)
    ensures Walk(fs, next, rest, dir', follow, budget) == Walk(fs, d, names, dir, follow, budget)
  {
  }

  /** The split of a path at its first slash, and the trimming after it, leave the other components. */
  lemma {:induction false} FirstName(rel: string, remain: string)
    requires rel != "" && !StartsSlash(rel)
    requires remain == if Slash(rel) < |rel| then TrimStart(rel[Slash(rel) + 1..]) else ""
    ensures Names(rel) != [] && Names(rel)[0] == rel[..Slash(rel)] && Names(rel)[1..] == Names(remain)
    ensures |remain| < |rel|
    ensures remain != "" <==> Names(remain) != []
    ensures Slash(rel) < |rel| <==> Names(remain) != [] || EndsSlash(rel)
    ensures remain != "" ==> EndsSlash(remain) == EndsSlash(rel)
  {
    var k := Slash(rel);
    var after := rel[k..];
    NamesUnfold(rel, k, after);
    if k < |rel| {
      var suffix := rel[k + 1..];
      assert after[0] == '/' && after[1..] == suffix;
      AfterSlash(after, suffix);
      TrimKeeps(suffix);
      assert suffix != "" ==> EndsSlash(suffix) == EndsSlash(rel);
    } else {
      NoSlashAtEnd(rel);
    }
  }

  lemma {:induction false} NamesUnfold(s: string, k: nat, after: string)
    requires s != "" && s[0] != '/' && k == Slash(s) && after == s[k..]
    ensures Names(s) == [s[..k]] + Names(after)
  {
  }

  lemma {:induction false} NoSlashAtEnd(s: string)
    requires Slash(s) == |s|
    ensures !EndsSlash(s)
  {
    if s != "" { NoSlashAtEnd(s[1..]); }
  }

  lemma {:induction false} AfterSlash(s: string, rest: string)
    requires StartsSlash(s) && rest == s[1..]
    ensures Names(s) == Names(rest)
  {
  }

  /** One rewriting of the path at a symbolic link keeps its meaning, at the price of one follow. */
  lemma {:induction false} RewrittenMeans(fs: Fs, d: Entry, base: Entry, name: string, rel: string, remain: string,
                                          next: Entry, link: string, rewritten: string, follow: bool, budget: nat)
    requires budget > 0 && rel != "" && !StartsSlash(rel) && name == rel[..Slash(rel)]
    requires remain == if Slash(rel) < |rel| then TrimStart(rel[Slash(rel) + 1..]) else ""
    requires Child(fs, d, name) == Ok(next) && fs.kind(next) == SymLink && (follow || remain != "")
    requires fs.link(next) == Ok(link) && link != ""
    requires rewritten == link + if remain != "" then "/" + remain else if Slash(rel) < |rel| then "/" else ""
    requires base == if StartsSlash(rewritten) then fs.root else d
    ensures Meaning(fs, base, TrimStart(rewritten), follow, budget - 1) == Meaning(fs, d, rel, follow, budget)
  {
    FirstName(rel, remain);
    RewrittenForm(link, remain, Slash(rel) < |rel|, rewritten);
    var trimmed, names := TrimStart(rewritten), Names(rel);
    assert |names| > 1 <==> remain != "" by { assert |names| == 1 + |Names(remain)|; }
    LinkThenRest(fs, d, names, EndsSlash(rel), follow, budget, next, link, Names(trimmed), EndsSlash(trimmed));
  }

  lemma {:induction false} RewrittenForm(link: string, remain: string, slash: bool, rewritten: string)
    requires link != "" && (remain != "" <==> Names(remain) != [])
    requires rewritten == link + if remain != "" then "/" + remain else if slash then "/" else ""
    ensures StartsSlash(rewritten) == StartsSlash(link) && Names(TrimStart(rewritten)) == Names(link) + Names(remain)
    ensures remain != "" ==> EndsSlash(TrimStart(rewritten)) == EndsSlash(remain)
    ensures remain == "" && Names(link) != [] ==> EndsSlash(TrimStart(rewritten)) == (EndsSlash(link) || slash)
  {
    if remain != "" || slash {
      assert rewritten == link + "/" + remain;
      NamesOfJoin(link, remain);
    } else {
      assert rewritten == link && Names(link) + Names(remain) == Names(link);
    }
    TrimKeeps(rewritten);
  }

  /** The same on components. */
  lemma {:induction false} LinkThenRest(fs: Fs, d: Entry, names: seq<string>, dir: bool, follow: bool, budget: nat,
                                        next: Entry, link: string, names': seq<string>, dir': bool)
    requires budget > 0 && names != [] && Child(fs, d, names[0]) == Ok(next)
    requires fs.kind(next) == SymLink && (follow || |names| > 1) && fs.link(next) == Ok(link) && link != ""
    requires names' == Names(link) + names[1..]
    requires if |names| > 1 then dir' == dir else names' == [] || dir' == (EndsSlash(link) || dir)
    ensures var base := if StartsSlash(link) then fs.root else d;
            Walk(fs, base, names', dir', follow, budget - 1) == Walk(fs, d, names, dir, follow, budget)
  {
    var base := if StartsSlash(link) then fs.root else d;
    if |names| > 1 {
      WalkSplits(fs, base, Names(link), names[1..], dir, follow, budget - 1);
    } else {
      assert names' == Names(link);
    }
  }

  // ---- Splitting off the base name ----

  /** `trim_end_matches('/')`. */
  function TrimEnd(s: string): (t: string)
    ensures !EndsSlash(t) && |t| <= |s|
  {
    if EndsSlash(s) then TrimEnd(s[..|s| - 1]) else s
  }

  /** The index of the last slash, if there is one. */
  function LastSlash(s: string): (r: Option<nat>)
    ensures r.Some? ==> r.value < |s| && s[r.value] == '/'
    ensures forall i | (if r.Some? then r.value + 1 else 0) <= i < |s| :: s[i] != '/'
  {
    if s == "" then None
    else if s[|s| - 1] == '/' then Some(|s| - 1)
    else LastSlash(s[..|s| - 1])
  }

  /** The last piece of `split_inclusive('/')` other than "/". */
  function LastPiece(s: string): Option<string>
    decreases |s|
  {
    if s == "" then None
    else if Slash(s) == |s| then Some(s)
    else
      var k := Slash(s);
      match LastPiece(s[k + 1..])
      case Some(p) => Some(p)
      case None => if s[..k + 1] == "/" then None else Some(s[..k + 1])
  }

  /** `split_path`. */
  function SplitPath(path: string): (string, string) { (DirPart(path), BasePart(path)) }

  function BasePart(path: string): string {
    match LastPiece(path)
    case Some(p) => p
    case None => "."
  }

  function DirPart(path: string): string {
    var trimmed := TrimEnd(path);
    var slash := LastSlash(trimmed);
    var last := if slash.Some? then trimmed[slash.value + 1..] else trimmed;
    if last == "" then "/"
    else
      var dir := TrimEnd(if slash.Some? then trimmed[..slash.value] else ".");
      if dir == "" then "/" else dir
  }

  lemma {:induction false} TrimEndKeeps(s: string)
    ensures Names(TrimEnd(s)) == Names(s)
    ensures TrimEnd(s) != "" ==> StartsSlash(TrimEnd(s)) == StartsSlash(s)
    ensures TrimEnd(s) == "" ==> s == "" || StartsSlash(s)
    ensures !EndsSlash(s) ==> TrimEnd(s) == s
  {
    if EndsSlash(s) {
      var t := s[..|s| - 1];
      TrimEndKeeps(t);
      assert s == t + "/" + "";
      NamesOfJoin(t, "");
    }
  }

  lemma {:induction false} OneName(s: string)
    requires s != "" && forall i | 0 <= i < |s| :: s[i] != '/'
    ensures Names(s) == [s]
  {
    NoSlash(s);
    assert s[..|s|] == s && s[|s|..] == "";
  }

  lemma {:induction false} NoSlash(s: string)
    requires forall i | 0 <= i < |s| :: s[i] != '/'
    ensures Slash(s) == |s|
  {
    if s != "" { NoSlash(s[1..]); }
  }

  /** The last component, with a slash when the path ends with one. */
  function BaseOf(names: seq<string>, slash: bool): Option<string> {
    if names == [] then None else Some(names[|names| - 1] + if slash then "/" else "")
  }

  lemma {:induction false} LastPieceIsLast(s: string)
    ensures LastPiece(s) == BaseOf(Names(s), EndsSlash(s))
    decreases |s|
  {
    if s != "" {
      var k := Slash(s);
      if k == |s| {
        NoSlashAtEnd(s);
        NamesUnfold(s, k, "");
        assert s[..k] == s && Names(s) == [s] && s + "" == s;
      } else {
        LastPieceIsLast(s[k + 1..]);
        LastPieceStep(s, k, s[k + 1..], s[..k]);
      }
    }
  }

  lemma {:induction false} LastPieceStep(s: string, k: nat, rest: string, name: string)
    requires s != "" && k == Slash(s) < |s| && rest == s[k + 1..] && name == s[..k]
    requires LastPiece(rest) == BaseOf(Names(rest), EndsSlash(rest))
    ensures LastPiece(s) == BaseOf(Names(s), EndsSlash(s))
  {
    LastPieceUnfold(s, k, rest, name);
    NamesAcross(s, k, rest, name);
    EndsAcross(s, k, rest);
    BaseOfMore(name, Names(rest), EndsSlash(s));
    if k == 0 { assert Names(s) == Names(rest); }
  }

  lemma {:induction false} LastPieceUnfold(s: string, k: nat, rest: string, name: string)
    requires s != "" && k == Slash(s) < |s| && rest == s[k + 1..] && name == s[..k]
    ensures LastPiece(s) == match LastPiece(rest)
                            case Some(p) => Some(p)
                            case None => if k == 0 then None else Some(name + "/")
  {
    assert s[..k + 1] == name + "/";
  }

  lemma {:induction false} EndsAcross(s: string, k: nat, rest: string)
    requires k < |s| && s[k] == '/' && rest == s[k + 1..]
    ensures if Names(rest) == [] then EndsSlash(s) else EndsSlash(s) == EndsSlash(rest)
  {
    if Names(rest) == [] { NoNames(rest); }
  }

  lemma {:induction false} NamesAcross(s: string, k: nat, rest: string, name: string)
    requires s != "" && k == Slash(s) < |s| && rest == s[k + 1..] && name == s[..k]
    ensures Names(s) == (if k == 0 then [] else [name]) + Names(rest)
  {
    var after := s[k..];
    assert after[0] == '/' && after[1..] == rest;
    AfterSlash(after, rest);
    if k > 0 { NamesUnfold(s, k, after); } else { assert after == s; }
  }

  lemma BaseOfMore(name: string, names: seq<string>, slash: bool)
    ensures BaseOf([name] + names, slash) == if names == [] then Some(name + if slash then "/" else "")
                                             else BaseOf(names, slash)
  {
  }

  lemma {:induction false} NoNames(s: string)
    requires Names(s) == []
    ensures s == "" || EndsSlash(s)
  {
    if s != "" && s[0] == '/' { NoNames(s[1..]); }
  }

  /** The base name that `split_path` gives is the last component, with a slash when the path ends with one. */
  lemma {:induction false} BaseMeans(path: string)
    ensures BasePart(path) == match BaseOf(Names(path), EndsSlash(path)) case Some(b) => b case None => "."
  {
    LastPieceIsLast(path);
  }

  /** The directory part that `split_path` gives stands for all components but the last. */
  lemma {:induction false} DirMeans(path: string, names: seq<string>, dir: string)
    requires names == Names(path) && dir == DirPart(path)
    ensures names == [] ==> dir == "/"
    ensures |names| == 1 && !StartsSlash(path) ==> dir == "."
    ensures |names| > 1 || (names != [] && StartsSlash(path)) ==>
              Names(dir) == names[..|names| - 1] && StartsSlash(dir) == StartsSlash(path)
    ensures |dir| <= |path| || |dir| == 1
  {
    TrimEndKeeps(path);
    var trimmed := TrimEnd(path);
    var slash := LastSlash(trimmed);
    if names == [] {
      EmptyOfNoNames(trimmed);
    } else if slash.None? {
      OneName(trimmed);
      TrimEndKeeps(".");
    } else {
      FrontMeans(trimmed, trimmed[..slash.value], trimmed[slash.value + 1..]);
      TrimEndKeeps(trimmed[..slash.value]);
    }
  }

  lemma {:induction false} FrontMeans(s: string, front: string, last: string)
    requires s == front + "/" + last && last != "" && forall i | 0 <= i < |last| :: last[i] != '/'
    ensures Names(s) == Names(TrimEnd(front)) + [last]
    ensures var dir := if TrimEnd(front) == "" then "/" else TrimEnd(front);
            Names(dir) == Names(TrimEnd(front)) && StartsSlash(dir) == StartsSlash(s)
  {
    OneName(last);
    NamesOfJoin(front, last);
    TrimEndKeeps(front);
    assert s[0] == if front == "" then '/' else front[0];
    AfterSlash("/", "");
  }

  lemma {:induction false} EmptyOfNoNames(s: string)
    requires Names(s) == [] && !EndsSlash(s)
    ensures s == ""
  {
    NoNames(s);
  }

  /** A successful lookup that does not follow a link at the end is a lookup of the directory part,
      followed by one step to the base name. */
  lemma {:induction false} LookupComposes(fs: Fs, d: Entry, path: string, names: seq<string>, max: nat)
    returns (dir: Entry)
    requires names == Names(path) && names != [] && !EndsSlash(path)
    requires Meaning(fs, d, TrimStart(path), false, max).Ok?
    ensures Meaning(fs, d, TrimStart(DirPart(path)), true, max) == Ok(dir)
    ensures Child(fs, dir, BasePart(path)) == Meaning(fs, d, TrimStart(path), false, max)
  {
    var front, base, part := names[..|names| - 1], names[|names| - 1], DirPart(path);
    TrimKeeps(path);
    assert names == front + [base] && base + "" == base;
    BaseMeans(path);
    dir := WalkComposes(fs, d, front, base, max);
    DirMeans(path, names, part);
    if front == [] && !StartsSlash(path) {
      assert Walk(fs, d, front, true, true, max).value.0 == dir;
      DotMeans(fs, d, max);
    } else {
      TrimKeeps(part);
      assert Walk(fs, d, front, EndsSlash(TrimStart(part)), true, max).value.0 == dir;
    }
  }

  /** The same on components. */
  lemma {:induction false} WalkComposes(fs: Fs, d: Entry, front: seq<string>, base: string, max: nat)
    returns (dir: Entry)
    requires Walk(fs, d, front + [base], false, false, max).Ok?
    ensures forall slash ::
              Walk(fs, d, front, slash, true, max).Ok? && Walk(fs, d, front, slash, true, max).value.0 == dir
    ensures fs.kind(dir) == Dir && fs.executable(dir)
    ensures Child(fs, dir, base) == Ok(Walk(fs, d, front + [base], false, false, max).value.0)
  {
    WalkSplits(fs, d, front, [base], false, false, max);
    var r := Walk(fs, d, front, true, true, max).value;
    LastStep(fs, r.0, base, r.1);
    WalkWithoutDir(fs, d, front, true, max);
    dir := r.0;
  }

  lemma {:induction false} LastStep(fs: Fs, d: Entry, base: string, budget: nat)
    requires Walk(fs, d, [base], false, false, budget).Ok?
    ensures Child(fs, d, base) == Ok(Walk(fs, d, [base], false, false, budget).value.0)
    ensures fs.kind(d) == Dir && fs.executable(d)
  {
    assert [base][1..] == [];
  }

  lemma {:induction false} DotMeans(fs: Fs, d: Entry, budget: nat)
    requires fs.kind(d) == Dir && fs.executable(d)
    ensures Meaning(fs, d, ".", true, budget) == Ok(d)
  {
    var dot := ["."];
    OneName(".");
    assert dot[1..] == [] && Child(fs, d, dot[0]) == Ok(d);
    assert Walk(fs, d, dot, false, true, budget) == Walk(fs, d, [], false, true, budget);
    assert Names(".") == dot && !EndsSlash(".");
  }

  // ---- Paths and where they start ----

  const AT_FDCWD := -100

  datatype FsPath =
    | Absolute(path: string)
    | CwdRelative(path: string)
    | Cwd
    | FdRelative(fd: int, path: string)
    | FdOnly(fd: int)

  datatype Resolver = Resolver(fs: Fs, cwd: Entry, files: int -> Result<Entry>)

  /** `FsPath::new`. */
  function NewFsPath(dirfd: int, path: string): (r: Result<FsPath>)
    ensures r.Ok? ==> PathOk(r.value) && PathOf(r.value) == path
    ensures r == Err(ENAMETOOLONG) <==> |path| > PATH_MAX
    ensures r == Err(EBADF) <==> |path| <= PATH_MAX && !StartsSlash(path) && dirfd < 0 && dirfd != AT_FDCWD
    ensures r.Err? ==> r.error == ENAMETOOLONG || r.error == EBADF
    ensures r.Ok? ==> forall res ::
              Start(res, r.value) == if StartsSlash(path) then Ok(res.fs.root)
                                     else if dirfd >= 0 then res.files(dirfd)
                                     else Ok(res.cwd)
  {
    if |path| > PATH_MAX then Err(ENAMETOOLONG)
    else if StartsSlash(path) then Ok(Absolute(path))
    else if dirfd >= 0 then Ok(if path == "" then FdOnly(dirfd) else FdRelative(dirfd, path))
    else if dirfd == AT_FDCWD then Ok(if path == "" then Cwd else CwdRelative(path))
    else Err(EBADF)
  }

  predicate PathOk(p: FsPath) {
    match p
    case Absolute(s) => StartsSlash(s) && |s| <= PATH_MAX
    case CwdRelative(s) => s != "" && !StartsSlash(s) && |s| <= PATH_MAX
    case FdRelative(_, s) => s != "" && !StartsSlash(s) && |s| <= PATH_MAX
    case _ => true
  }

  /** The entry a path starts from. */
  function Start(r: Resolver, p: FsPath): Result<Entry> {
    match p
    case Absolute(_) => Ok(r.fs.root)
    case CwdRelative(_) => Ok(r.cwd)
    case Cwd => Ok(r.cwd)
    case FdRelative(fd, _) => r.files(fd)
    case FdOnly(fd) => r.files(fd)
  }

  function PathOf(p: FsPath): string {
    match p
    case Absolute(s) => s
    case CwdRelative(s) => s
    case FdRelative(_, s) => s
    case _ => ""
  }

  /** `lookup_inner`: every path that `FsPath::new` makes has its meaning from its start. */
  method Lookup(r: Resolver, p: FsPath, follow: bool) returns (e: Result<Entry>)
    requires PathOk(p)
    ensures e == match Start(r, p)
                 case Err(err) => Err(err)
                 case Ok(d) => Meaning(r.fs, d, TrimStart(PathOf(p)), follow, SYMLINKS_MAX)
  {
    match p
    case Absolute(s) => e := LookupFromParent(r.fs, r.fs.root, TrimStart(s), follow);
    case CwdRelative(s) => e := LookupFromParent(r.fs, r.cwd, s, follow);
    case Cwd => e := Ok(r.cwd);
    case FdRelative(fd, s) =>
      var parent := r.files(fd);
      if parent.Err? { return Err(parent.error); }
      e := LookupFromParent(r.fs, parent.value, s, follow);
    case FdOnly(fd) => e := r.files(fd);
  }

  /** `lookup_dir_and_base_name`. */
  method LookupDirAndBaseName(r: Resolver, p: FsPath) returns (e: Result<(Entry, string)>)
    requires PathOk(p)
    ensures p.Cwd? || p.FdOnly? ==> e == Err(ENOENT)
    ensures !p.Cwd? && !p.FdOnly? ==>
              e == match Start(r, p)
                   case Err(err) => Err(err)
                   case Ok(d) => match Meaning(r.fs, d, TrimStart(DirPart(PathOf(p))), true, SYMLINKS_MAX)
                                 case Err(err) => Err(err)
                                 case Ok(dir) => Ok((dir, BasePart(PathOf(p))))
  {
    if p.Cwd? || p.FdOnly? { return Err(ENOENT); }
    var (dir, base) := SplitPath(p.path);
    DirMeans(p.path, Names(p.path), dir);
    if !p.Absolute? { RelativeDir(p.path); }
    var start: Result<Entry>;
    match p {
      case Absolute(_) => start := Ok(r.fs.root);
      case CwdRelative(_) => start := Ok(r.cwd);
      case FdRelative(fd, _) => start := r.files(fd);
    }
    if start.Err? { return Err(start.error); }
    var d := LookupFromParent(r.fs, start.value, if p.Absolute? then TrimStart(dir) else dir, true);
    if d.Err? { return Err(d.error); }
    return Ok((d.value, base));
  }

  /** The directory part of a relative path is relative, so that lookups never start with a slash. */
  lemma {:induction false} RelativeDir(path: string)
    requires path != "" && !StartsSlash(path)
    ensures !StartsSlash(DirPart(path)) && TrimStart(DirPart(path)) == DirPart(path)
  {
    DirMeans(path, Names(path), DirPart(path));
    NamesUnfold(path, Slash(path), path[Slash(path)..]);
  }

  /** The composition law for every path without a slash at its end: looking up the directory part and then the
      base name there gives the entry that a lookup without following the last link gives. */
  lemma {:induction false} DirAndBaseNameAgree(r: Resolver, p: FsPath, d: Entry) returns (dir: Entry)
    requires PathOk(p) && Names(PathOf(p)) != [] && !EndsSlash(PathOf(p)) && Start(r, p) == Ok(d)
    requires Meaning(r.fs, d, TrimStart(PathOf(p)), false, SYMLINKS_MAX).Ok?
    ensures Meaning(r.fs, d, TrimStart(DirPart(PathOf(p))), true, SYMLINKS_MAX) == Ok(dir)
    ensures Child(r.fs, dir, BasePart(PathOf(p))) == Meaning(r.fs, d, TrimStart(PathOf(p)), false, SYMLINKS_MAX)
  {
    dir := LookupComposes(r.fs, d, PathOf(p), Names(PathOf(p)), SYMLINKS_MAX);
  }

  // ---- Creating a file where a lookup has ended ----

  function WithLeft(r: Result<(Entry, nat)>, more: nat): Result<(Entry, nat)> {
    match r
    case Err(e) => Err(e)
    case Ok(v) => Ok((v.0, v.1 + more))
  }

  /** A larger budget changes nothing about a walk that did not use up a smaller one. */
  lemma {:induction false} WalkMoreBudget(fs: Fs, d: Entry, names: seq<string>, dir: bool, follow: bool, b: nat,
                                          more: nat)
    requires Walk(fs, d, names, dir, follow, b) != Err(ELOOP)
    ensures Walk(fs, d, names, dir, follow, b + more) == WithLeft(Walk(fs, d, names, dir, follow, b), more)
    decreases b, |names|
  {
    if names != [] && Child(fs, d, names[0]).Ok? {
      var next, rest, mustBeDir := Child(fs, d, names[0]).value, names[1..], |names| > 1 || dir;
      if fs.kind(next) == SymLink && (follow || rest != []) {
        if b > 0 && fs.link(next).Ok? && fs.link(next).value != "" {
          var path := fs.link(next).value;
          var base := if StartsSlash(path) then fs.root else d;
          var target := Walk(fs, base, Names(path), EndsSlash(path) || mustBeDir, true, b - 1);
          assert target != Err(ELOOP);
          WalkMoreBudget(fs, base, Names(path), EndsSlash(path) || mustBeDir, true, b - 1, more);
          if target.Ok? { WalkMoreBudget(fs, target.value.0, rest, dir, follow, target.value.1, more); }
          MoreThroughLink(fs, d, names, dir, follow, b, more, next, path, target);
        }
      } else if !(mustBeDir && fs.kind(next) != Dir) {
        WalkMoreBudget(fs, next, rest, dir, follow, b, more);
      }
    }
  }

  lemma {:induction false} MoreThroughLink(fs: Fs, d: Entry, names: seq<string>, dir: bool, follow: bool, b: nat,
                                           more: nat, next: Entry, path: string, target: Result<(Entry, nat)>)
    requires names != [] && Child(fs, d, names[0]) == Ok(next) && fs.kind(next) == SymLink
    requires (follow || names[1..] != [])
    requires b > 0 && fs.link(next) == Ok(path) && path != ""
    requires var base := if StartsSlash(path) then fs.root else d;
             && target == Walk(fs, base, Names(path), EndsSlash(path) || |names| > 1 || dir, true, b - 1)
             && WithLeft(target, more)
                == Walk(fs, base, Names(path), EndsSlash(path) || |names| > 1 || dir, true, b - 1 + more)
    requires target.Ok? ==>
               WithLeft(Walk(fs, target.value.0, names[1..], dir, follow, target.value.1), more)
               == Walk(fs, target.value.0, names[1..], dir, follow, target.value.1 + more)
    ensures Walk(fs, d, names, dir, follow, b + more) == WithLeft(Walk(fs, d, names, dir, follow, b), more)
  {
    assert b + more - 1 == b - 1 + more;
  }

  /** Asking for a directory can only add the error that says so. */
  lemma {:induction false} WalkDirMatters(fs: Fs, d: Entry, names: seq<string>, follow: bool, budget: nat)
    ensures Walk(fs, d, names, true, follow, budget) == Err(ENOTDIR)
         || Walk(fs, d, names, true, follow, budget) == Walk(fs, d, names, false, follow, budget)
    decreases budget, |names|
  {
    if names != [] && Child(fs, d, names[0]).Ok? {
      var next, rest := Child(fs, d, names[0]).value, names[1..];
      if fs.kind(next) == SymLink && (follow || rest != []) {
        if budget > 0 && fs.link(next).Ok? && fs.link(next).value != "" {
          var path := fs.link(next).value;
          var base := if StartsSlash(path) then fs.root else d;
          WalkDirMatters(fs, base, Names(path), true, budget - 1);
          var target := Walk(fs, base, Names(path), true, true, budget - 1);
          if target.Ok? { WalkDirMatters(fs, target.value.0, rest, follow, target.value.1); }
        }
      } else {
        WalkDirMatters(fs, next, rest, follow, budget);
      }
    }
  }

  /** The file system with a new file in a directory. */
  function WithFile(fs: Fs, at: Entry, name: string, made: Entry): Fs {
    fs.(child := (d: Entry, n: string) => if d == at && n == name then Ok(made) else fs.child(d, n))
  }

  /** A new file does not change a walk that has got to its end without it. */
  lemma {:induction false} WalkWithFile(fs: Fs, d: Entry, names: seq<string>, dir: bool, follow: bool, budget: nat,
                                        at: Entry, name: string, made: Entry)
    requires Child(fs, at, name).Err? && Walk(fs, d, names, dir, follow, budget).Ok?
    ensures Walk(WithFile(fs, at, name, made), d, names, dir, follow, budget) == Walk(fs, d, names, dir, follow, budget)
    decreases budget, |names|
  {
    if names != [] {
      var next, rest, mustBeDir := Child(fs, d, names[0]).value, names[1..], |names| > 1 || dir;
      assert Child(WithFile(fs, at, name, made), d, names[0]) == Ok(next);
      if fs.kind(next) == SymLink && (follow || rest != []) {
        var path := fs.link(next).value;
        var base := if StartsSlash(path) then fs.root else d;
        WalkWithFile(fs, base, Names(path), EndsSlash(path) || mustBeDir, true, budget - 1, at, name, made);
        var target := Walk(fs, base, Names(path), EndsSlash(path) || mustBeDir, true, budget - 1).value;
        WalkWithFile(fs, target.0, rest, dir, follow, target.1, at, name, made);
      } else {
        WalkWithFile(fs, next, rest, dir, follow, budget, at, name, made);
      }
    }
  }

  /** A directory in which a name can be looked up. */
  lemma {:induction false} CanLookUp(fs: Fs, d: Entry, name: string, slash: bool, follow: bool, budget: nat)
    requires Walk(fs, d, [name], slash, follow, budget) == Err(ENOENT)
    ensures fs.kind(d) == Dir && fs.executable(d)
    ensures Child(fs, d, name).Err? ==> Child(fs, d, name) == Err(ENOENT)
    ensures Child(fs, d, name).Ok? ==> fs.kind(Child(fs, d, name).value) == SymLink && follow
  {
    assert [name][1..] == [];
  }

  /** If a path leads to nothing, then its directory part leads to nothing, or to a directory from which its last
      component leads to nothing. */
  lemma {:induction false} DirOfMissing(fs: Fs, d: Entry, path: string, names: seq<string>, slash: bool, follow: bool,
                                        budget: nat, max: nat)
    requires budget <= max && names == Names(path) && Walk(fs, d, names, slash, follow, budget) == Err(ENOENT)
    ensures names != []
    ensures var front, last := names[..|names| - 1], names[|names| - 1];
            var w, dir := Walk(fs, d, front, true, true, budget), Meaning(fs, d, TrimStart(DirPart(path)), true, max);
            if w.Ok? then dir == Ok(w.value.0) && Walk(fs, w.value.0, [last], slash, follow, w.value.1) == Err(ENOENT)
            else w == Err(ENOENT) && dir == Err(ENOENT)
  {
    assert names != [];
    var front, last := names[..|names| - 1], names[|names| - 1];
    assert names == front + [last];
    WalkSplits(fs, d, front, [last], slash, follow, budget);
    WalkMoreBudget(fs, d, front, true, true, budget, max - budget);
    WalkDirMatters(fs, d, front, true, max);
    DirMeans(path, names, DirPart(path));
    if front == [] && !StartsSlash(path) {
      CanLookUp(fs, d, last, slash, follow, budget);
      DotMeans(fs, d, max);
    } else {
      TrimKeeps(DirPart(path));
    }
  }

  /** A component, with a slash behind it where there is one. */
  function BaseName(name: string, slash: bool): string { if slash then name + "/" else name }

  lemma {:induction false} TrimBase(name: string, slash: bool)
    requires name != "" && !EndsSlash(name)
    ensures TrimEnd(BaseName(name, slash)) == name && EndsSlash(BaseName(name, slash)) == slash
  {
    if slash { assert (name + "/")[..|name|] == name; }
    TrimEndKeeps(name);
  }

  lemma {:induction false} NamesAreClean(s: string, i: nat)
    requires i < |Names(s)|
    ensures Names(s)[i] != "" && !EndsSlash(Names(s)[i])
    decreases |s|
  {
    if s[0] == '/' {
      NamesAreClean(s[1..], i);
    } else if i > 0 {
      NamesAreClean(s[Slash(s)..], i - 1);
    } else {
      NoSlashBefore(s);
    }
  }

  lemma {:induction false} NoSlashBefore(s: string)
    ensures forall i | 0 <= i < Slash(s) :: s[i] != '/'
  {
    if s != "" && s[0] != '/' { NoSlashBefore(s[1..]); }
  }

  /** The last component of a path, as `split_path` gives it. */
  lemma {:induction false} BaseIs(path: string, names: seq<string>)
    requires names == Names(path) && names != []
    ensures BasePart(path) == BaseName(names[|names| - 1], EndsSlash(path))
    ensures names[|names| - 1] != "" && !EndsSlash(names[|names| - 1])
  {
    BaseMeans(path);
    NamesAreClean(path, |names| - 1);
  }

  /** The content of a link at the end of a path, with the slash that was behind it. */
  function TailLink(link: string, slash: bool): string { if slash && !EndsSlash(link) then link + "/" else link }

  lemma {:induction false} TailLinkKeeps(link: string, slash: bool)
    requires link != ""
    ensures Names(TailLink(link, slash)) == Names(link)
    ensures EndsSlash(TailLink(link, slash)) == (EndsSlash(link) || slash)
    ensures StartsSlash(TailLink(link, slash)) == StartsSlash(link)
  {
    if slash && !EndsSlash(link) {
      assert link + "/" == link + "/" + "";
      NamesOfJoin(link, "");
    }
  }

  /** One round of the loop: where the link leads. */
  lemma {:induction false} TailStep(fs: Fs, d: Entry, name: string, slash: bool, b: nat, next: Entry, link: string)
    requires Walk(fs, d, [name], slash, true, b) == Err(ENOENT)
    requires Child(fs, d, name) == Ok(next) && fs.kind(next) == SymLink && fs.link(next) == Ok(link) && link != ""
    ensures b > 0 && Names(link) != []
    ensures Walk(fs, LinkStart(fs, d, link), Names(link), EndsSlash(link) || slash, true, b - 1) == Err(ENOENT)
  {
    assert [name][1..] == [];
  }

  // ---- Where a path that leads to nothing stops ----

  /** The place that such a path names: a directory, a name that is not there, and whether a slash behind it asks for a
      directory. It names no place if the walk stops earlier or in a link that cannot be read; `TooLong` stands for a
      link at the end whose directory part is too long to be looked up. */
  datatype Spot = Place(at: Entry, name: string, slash: bool) | Nowhere | TooLong

  function LinkStart(fs: Fs, d: Entry, link: string): Entry { if StartsSlash(link) then fs.root else d }

  function PlaceOf(fs: Fs, d: Entry, names: seq<string>, slash: bool, follow: bool, b: nat): Spot
    decreases b, 1
  {
    if names == [] then Nowhere
    else match Walk(fs, d, names[..|names| - 1], true, true, b)
      case Err(_) => Nowhere
      case Ok(r) => PlaceAt(fs, r.0, names[|names| - 1], slash, follow, r.1)
  }

  /** From the directory part on. */
  function PlaceAt(fs: Fs, d: Entry, last: string, slash: bool, follow: bool, b: nat): Spot
    decreases b, 0
  {
    match Child(fs, d, last)
    case Err(_) => Place(d, last, slash)
    case Ok(next) =>
      if !follow || b == 0 || fs.link(next).Err? || fs.link(next).value == "" then Nowhere
      else if LongDir(fs.link(next).value, slash) then TooLong
      else
        var link := fs.link(next).value;
        PlaceOf(fs, LinkStart(fs, d, link), Names(link), EndsSlash(link) || slash, true, b - 1)
  }

  predicate LongDir(link: string, slash: bool) { |TrimStart(DirPart(TailLink(link, slash)))| > PATH_MAX }

  /** An entry at which every walk that goes on ends: a file, or a directory that may not be searched. */
  predicate Sealed(fs: Fs, made: Entry) {
    fs.kind(made) != SymLink && (fs.kind(made) == Dir ==> !fs.executable(made))
  }

  ghost predicate Finds(fs: Fs, d: Entry, names: seq<string>, slash: bool, follow: bool, b: nat, made: Entry) {
    var r := Walk(fs, d, names, slash, follow, b);
    r.Ok? && r.value.0 == made
  }

  lemma {:induction false} SealedStops(fs: Fs, made: Entry, names: seq<string>, slash: bool, follow: bool, b: nat,
                                       at: Entry, name: string)
    requires Sealed(fs, made) && names != []
    ensures Walk(WithFile(fs, at, name, made), made, names, slash, follow, b).Err?
  {
  }

  /** A walk that gets to its end only with the new entry ends at that entry. */
  lemma {:induction false} OnlyToNew(fs: Fs, d: Entry, names: seq<string>, dir: bool, follow: bool, b: nat, at: Entry,
                                     name: string, made: Entry)
    requires Child(fs, at, name).Err? && Sealed(fs, made) && Walk(fs, d, names, dir, follow, b).Err?
    ensures Walk(WithFile(fs, at, name, made), d, names, dir, follow, b).Ok? ==>
              Finds(WithFile(fs, at, name, made), d, names, dir, follow, b, made)
    decreases b, |names|
  {
    var fs' := WithFile(fs, at, name, made);
    var rest, mustBeDir := names[1..], |names| > 1 || dir;
    if Walk(fs', d, names, dir, follow, b).Ok? {
      var next := Child(fs', d, names[0]).value;
      if Child(fs, d, names[0]).Err? {
        assert next == made;
        if rest != [] { SealedStops(fs, made, rest, dir, follow, b, at, name); }
      } else if fs.kind(next) == SymLink && (follow || rest != []) {
        var link := fs.link(next).value;
        OnlyToNewLink(fs, d, names, dir, follow, b, at, name, made, link);
      } else {
        OnlyToNew(fs, next, rest, dir, follow, b, at, name, made);
      }
    }
  }

  lemma {:induction false} OnlyToNewLink(fs: Fs, d: Entry, names: seq<string>, dir: bool, follow: bool, b: nat,
                                         at: Entry, name: string, made: Entry, link: string)
    requires Child(fs, at, name).Err? && Sealed(fs, made) && Walk(fs, d, names, dir, follow, b).Err?
    requires names != [] && Child(fs, d, names[0]).Ok? && b > 0 && link != ""
    requires var next := Child(fs, d, names[0]).value;
             fs.kind(next) == SymLink && (follow || names[1..] != []) && fs.link(next) == Ok(link)
    requires Walk(WithFile(fs, at, name, made), d, names, dir, follow, b).Ok?
    ensures Finds(WithFile(fs, at, name, made), d, names, dir, follow, b, made)
    decreases b, |names|, 0
  {
    var fs', rest, mustBeDir := WithFile(fs, at, name, made), names[1..], |names| > 1 || dir;
    var base := LinkStart(fs, d, link);
    assert Child(fs', d, names[0]) == Child(fs, d, names[0]);
    var old' := Walk(fs, base, Names(link), EndsSlash(link) || mustBeDir, true, b - 1);
    var new' := Walk(fs', base, Names(link), EndsSlash(link) || mustBeDir, true, b - 1).value;
    if old'.Ok? {
      WalkWithFile(fs, base, Names(link), EndsSlash(link) || mustBeDir, true, b - 1, at, name, made);
      OnlyToNew(fs, new'.0, rest, dir, follow, new'.1, at, name, made);
    } else {
      OnlyToNew(fs, base, Names(link), EndsSlash(link) || mustBeDir, true, b - 1, at, name, made);
      if rest != [] { SealedStops(fs, made, rest, dir, follow, new'.1, at, name); }
    }
  }

  /** What was put at a place is where the path leads, if it is a directory where one is asked for. */
  predicate Fills(fs: Fs, spot: Spot, at: Entry, name: string, made: Entry) {
    spot.Place? && spot.at == at && spot.name == name && (spot.slash ==> fs.kind(made) == Dir)
  }

  /** A path that leads to nothing leads to a new entry if and only if that entry fills its place. */
  lemma {:induction false} PlaceIsRight(fs: Fs, d: Entry, names: seq<string>, slash: bool, follow: bool, b: nat,
                                        at: Entry, name: string, made: Entry)
    requires Child(fs, at, name) == Err(ENOENT) && Sealed(fs, made)
    requires Walk(fs, d, names, slash, follow, b) == Err(ENOENT)
    ensures var spot := PlaceOf(fs, d, names, slash, follow, b);
            spot != TooLong ==> (Finds(WithFile(fs, at, name, made), d, names, slash, follow, b, made)
                                 <==> Fills(fs, spot, at, name, made))
    decreases b, 1
  {
    var fs', front, last := WithFile(fs, at, name, made), names[..|names| - 1], names[|names| - 1];
    assert names == front + [last];
    WalkSplits(fs, d, front, [last], slash, follow, b);
    WalkSplits(fs', d, front, [last], slash, follow, b);
    var w := Walk(fs, d, front, true, true, b);
    if w.Ok? {
      WalkWithFile(fs, d, front, true, true, b, at, name, made);
      PlaceAtIsRight(fs, w.value.0, last, slash, follow, w.value.1, at, name, made);
    } else {
      OnlyToNew(fs, d, front, true, true, b, at, name, made);
      var w' := Walk(fs', d, front, true, true, b);
      if w'.Ok? { SealedStops(fs, made, [last], slash, follow, w'.value.1, at, name); }
    }
  }

  lemma {:induction false} PlaceAtIsRight(fs: Fs, d: Entry, last: string, slash: bool, follow: bool, b: nat, at: Entry,
                                          name: string, made: Entry)
    requires Child(fs, at, name) == Err(ENOENT) && Sealed(fs, made)
    requires Walk(fs, d, [last], slash, follow, b) == Err(ENOENT)
    ensures var spot := PlaceAt(fs, d, last, slash, follow, b);
            spot != TooLong ==> (Finds(WithFile(fs, at, name, made), d, [last], slash, follow, b, made)
                                 <==> Fills(fs, spot, at, name, made))
    decreases b, 0
  {
    var fs' := WithFile(fs, at, name, made);
    assert [last][1..] == [];
    CanLookUp(fs, d, last, slash, follow, b);
    if Child(fs, d, last).Err? {
      assert Child(fs', d, last) == if d == at && last == name then Ok(made) else Err(ENOENT);
      assert Walk(fs', made, [], slash, follow, b) == Ok((made, b));
    } else {
      var next := Child(fs, d, last).value;
      assert Child(fs', d, last) == Ok(next);
      LinkOfMissing(fs, d, last, slash, b, next);
      if fs.link(next).Ok? && fs.link(next).value != "" {
        var link := fs.link(next).value;
        TailStep(fs, d, last, slash, b, next, link);
        PlaceIsRight(fs, LinkStart(fs, d, link), Names(link), EndsSlash(link) || slash, true, b - 1, at, name, made);
        ThroughLink(fs', d, last, slash, b, next, link);
      }
    }
  }

  /** A link that comes last stands for its path. */
  lemma {:induction false} ThroughLink(fs: Fs, d: Entry, last: string, slash: bool, b: nat, next: Entry, link: string)
    requires b > 0 && Child(fs, d, last) == Ok(next) && fs.kind(next) == SymLink && fs.link(next) == Ok(link)
    requires link != ""
    ensures Walk(fs, d, [last], slash, true, b)
         == Walk(fs, LinkStart(fs, d, link), Names(link), EndsSlash(link) || slash, true, b - 1)
  {
    assert [last][1..] == [];
  }

  /** No link is so long that its directory part is refused. */
  ghost predicate ShortLinks(fs: Fs) { forall x: Entry | fs.link(x).Ok? :: |fs.link(x).value| < PATH_MAX }

  lemma {:induction false} ShortLinksFit(fs: Fs, d: Entry, names: seq<string>, slash: bool, follow: bool, b: nat)
    requires ShortLinks(fs)
    ensures PlaceOf(fs, d, names, slash, follow, b) != TooLong
    decreases b
  {
    if names != [] && Walk(fs, d, names[..|names| - 1], true, true, b).Ok? {
      var w, last := Walk(fs, d, names[..|names| - 1], true, true, b).value, names[|names| - 1];
      if Child(fs, w.0, last).Ok? && w.1 > 0 && fs.link(Child(fs, w.0, last).value).Ok? {
        var link := fs.link(Child(fs, w.0, last).value).value;
        if link != "" {
          var path := TailLink(link, slash);
          DirMeans(path, Names(path), DirPart(path));
          ShortLinksFit(fs, LinkStart(fs, w.0, link), Names(link), EndsSlash(link) || slash, true, w.1 - 1);
        }
      }
    }
  }

  /** How a search for the place ends. */
  function SpotIs(r: Result<(Entry, string)>): Spot {
    match r
    case Ok(v) => Place(v.0, TrimEnd(v.1), EndsSlash(v.1))
    case Err(e) => if e == ENAMETOOLONG then TooLong else Nowhere
  }

  /** The loop that follows links at the end of a path, for a path that leads to nothing: it finds the place. */
  method FollowTail(fs: Fs, d0: Entry, base0: string, ghost name0: string, ghost slash0: bool, ghost b0: nat)
    returns (r: Result<(Entry, string)>)
    requires base0 == BaseName(name0, slash0) && name0 != "" && !EndsSlash(name0) && b0 <= SYMLINKS_MAX
    requires Walk(fs, d0, [name0], slash0, true, b0) == Err(ENOENT)
    ensures SpotIs(r) == PlaceAt(fs, d0, name0, slash0, true, b0)
    ensures r.Ok? ==> Child(fs, r.value.0, TrimEnd(r.value.1)) == Err(ENOENT)
    ensures r.Err? ==> r.error == ENOENT || r.error == ENAMETOOLONG
  {
    var d, base := d0, base0;
    ghost var name, slash := name0, slash0;
    ghost var b: nat := b0;
    while true
      invariant base == BaseName(name, slash) && name != "" && !EndsSlash(name) && b <= SYMLINKS_MAX
      invariant Walk(fs, d, [name], slash, true, b) == Err(ENOENT)
      invariant PlaceAt(fs, d, name, slash, true, b) == PlaceAt(fs, d0, name0, slash0, true, b0)
      decreases b
    {
      TrimBase(name, slash);
      CanLookUp(fs, d, name, slash, true, b);
      var next := Child(fs, d, TrimEnd(base));
      if next.Err? || fs.kind(next.value) != SymLink { return Ok((d, base)); }
      var link := fs.link(next.value);
      LinkOfMissing(fs, d, name, slash, b, next.value);
      if link.Err? { return Err(link.error); }
      if link.value == "" { return Err(ENOENT); }
      ghost var b': nat, slash': bool;
      var e, file;
      e, file, name, slash', b' := FollowOne(fs, d, base, next.value, link.value, name, slash, b);
      if e.Err? { return Err(e.error); }
      d, base, slash, b := e.value, file, slash', b';
    }
  }

  lemma {:induction false} LinkOfMissing(fs: Fs, d: Entry, name: string, slash: bool, b: nat, next: Entry)
    requires Walk(fs, d, [name], slash, true, b) == Err(ENOENT) && Child(fs, d, name) == Ok(next)
    requires fs.kind(next) == SymLink
    ensures fs.link(next).Err? ==> fs.link(next).error == ENOENT
  {
  }

  /** One round of the loop. */
  method FollowOne(fs: Fs, d: Entry, base: string, next: Entry, link: string, ghost name: string, ghost slash: bool,
                   ghost b: nat)
    returns (e: Result<Entry>, file: string, ghost name': string, ghost slash': bool, ghost b': nat)
    requires b <= SYMLINKS_MAX && Walk(fs, d, [name], slash, true, b) == Err(ENOENT) && EndsSlash(base) == slash
    requires Child(fs, d, name) == Ok(next) && fs.kind(next) == SymLink && fs.link(next) == Ok(link) && link != ""
    ensures e.Err? ==>
              && (e.error == ENOENT || e.error == ENAMETOOLONG)
              && PlaceAt(fs, d, name, slash, true, b) == if e.error == ENOENT then Nowhere else TooLong
    ensures e.Ok? ==>
              && file == BaseName(name', slash') && name' != "" && !EndsSlash(name') && b' < b
              && Walk(fs, e.value, [name'], slash', true, b') == Err(ENOENT)
              && PlaceAt(fs, e.value, name', slash', true, b') == PlaceAt(fs, d, name, slash, true, b)
  {
    var path := if EndsSlash(base) && !EndsSlash(link) then link + "/" else link;
    TailStep(fs, d, name, slash, b, next, link);
    TailBase(link, slash);
    e, file := LookupSplit(fs, d, path);
    name', slash' := Names(link)[|Names(link)| - 1], EndsSlash(link) || slash;
    b' := TailPlace(fs, d, name, slash, b, SYMLINKS_MAX, next, link, e);
  }

  /** Looks up the directory part of a link. */
  method LookupSplit(fs: Fs, d: Entry, path: string) returns (e: Result<Entry>, file: string)
    requires Names(path) != []
    ensures file == BasePart(path)
    ensures e == if |TrimStart(DirPart(path))| > PATH_MAX then Err(ENAMETOOLONG)
                 else Meaning(fs, LinkStart(fs, d, path), TrimStart(DirPart(path)), true, SYMLINKS_MAX)
  {
    var (dir, base) := SplitPath(path);
    DirStarts(path, Names(path), dir);
    e := LookupFromParent(fs, if StartsSlash(dir) then fs.root else d, TrimStart(dir), true);
    file := base;
  }

  lemma {:induction false} TailBase(link: string, slash: bool)
    requires link != "" && Names(link) != []
    ensures var path, last := TailLink(link, slash), Names(link)[|Names(link)| - 1];
            && Names(path) == Names(link) && StartsSlash(path) == StartsSlash(link)
            && BasePart(path) == BaseName(last, EndsSlash(link) || slash) && last != "" && !EndsSlash(last)
  {
    TailLinkKeeps(link, slash);
    BaseIs(TailLink(link, slash), Names(link));
  }

  /** Looking up the directory part of the link takes the search one step on. */
  lemma {:induction false} TailPlace(fs: Fs, d: Entry, name: string, slash: bool, b: nat, max: nat, next: Entry,
                                     link: string, e: Result<Entry>) returns (b': nat)
    requires b <= max && Walk(fs, d, [name], slash, true, b) == Err(ENOENT)
    requires Child(fs, d, name) == Ok(next) && fs.kind(next) == SymLink && fs.link(next) == Ok(link) && link != ""
    requires e == if LongDir(link, slash) then Err(ENAMETOOLONG)
                  else Meaning(fs, LinkStart(fs, d, link), TrimStart(DirPart(TailLink(link, slash))), true, max)
    ensures e.Err? ==>
              && (e.error == ENOENT || e.error == ENAMETOOLONG)
              && PlaceAt(fs, d, name, slash, true, b) == if e.error == ENOENT then Nowhere else TooLong
    ensures e.Ok? ==>
              && Names(link) != [] && b' < b
              && var last, slash' := Names(link)[|Names(link)| - 1], EndsSlash(link) || slash;
                 && Walk(fs, e.value, [last], slash', true, b') == Err(ENOENT)
                 && PlaceAt(fs, e.value, last, slash', true, b') == PlaceAt(fs, d, name, slash, true, b)
  {
    var path, names, start := TailLink(link, slash), Names(link), LinkStart(fs, d, link);
    TailLinkKeeps(link, slash);
    TailStep(fs, d, name, slash, b, next, link);
    DirOfMissing(fs, start, path, names, EndsSlash(link) || slash, true, b - 1, max);
    var w := Walk(fs, start, names[..|names| - 1], true, true, b - 1);
    b' := if w.Ok? then w.value.1 else 0;
  }

  lemma {:induction false} DirStarts(path: string, names: seq<string>, dir: string)
    requires names == Names(path) && names != [] && dir == DirPart(path)
    ensures StartsSlash(dir) == StartsSlash(path) && (!StartsSlash(dir) ==> TrimStart(dir) == dir)
    ensures |TrimStart(dir)| <= |path|
  {
    DirMeans(path, names, dir);
    TrimKeeps(path);
  }

  // ---- Opening a file that may have to be created ----

  /** What `open` with O_CREAT goes on with: the entry that is there, or the directory and the name to create. */
  datatype Target = Found(entry: Entry) | Create(dir: Entry, name: string) | Fails(error: Errno)

  /** What `open` makes of the place. */
  function TargetOf(spot: Spot): Target {
    match spot
    case Place(at, name, slash) => if slash then Fails(EISDIR) else Create(at, name)
    case Nowhere => Fails(ENOENT)
    case TooLong => Fails(ENAMETOOLONG)
  }

  /** The lookups of `open` with O_CREAT. For a path that leads to nothing, it goes on to create a file in a directory
      under a name if and only if the path would lead to a file that is there; where only a directory would do, it fails
      with EISDIR, and where nothing would, with ENOENT. */
  method LookupForCreate(r: Resolver, p: FsPath, follow: bool) returns (t: Target)
    requires PathOk(p)
    ensures t == OpenTarget(r, p, follow)
    ensures Start(r, p).Ok? && MeaningOf(r, p, follow) == Err(ENOENT) ==>
              && (ShortLinks(r.fs) ==> t != Fails(ENAMETOOLONG))
              && (t != Fails(ENAMETOOLONG) ==> RightPlace(r, p, follow, t))
    ensures Start(r, p).Ok? && BaseMissing(r.fs, Start(r, p).value, PathOf(p), SYMLINKS_MAX) ==>
              t == if EndsSlash(PathOf(p)) then Fails(EISDIR) else Create(DirOf(r, p).value, BasePart(PathOf(p)))
  {
    t := LookupTarget(r, p, follow);
    if Start(r, p).Ok? {
      if MeaningOf(r, p, follow) == Err(ENOENT) { MissingIsRight(r, p, follow); }
      if BaseMissing(r.fs, Start(r, p).value, PathOf(p), SYMLINKS_MAX) { MissingBaseIsCreated(r, p, follow); }
    }
  }

  function MeaningOf(r: Resolver, p: FsPath, follow: bool): Result<Entry>
    requires Start(r, p).Ok?
  {
    Meaning(r.fs, Start(r, p).value, TrimStart(PathOf(p)), follow, SYMLINKS_MAX)
  }

  function DirOf(r: Resolver, p: FsPath): Result<Entry>
    requires Start(r, p).Ok?
  {
    Meaning(r.fs, Start(r, p).value, TrimStart(DirPart(PathOf(p))), true, SYMLINKS_MAX)
  }

  /** The entry that the path leads to, or else what is made of the place where it stops. */
  function OpenTarget(r: Resolver, p: FsPath, follow: bool): Target {
    if Start(r, p).Err? then Fails(Start(r, p).error)
    else match MeaningOf(r, p, follow)
      case Ok(x) => Found(x)
      case Err(e) => if e != ENOENT then Fails(e) else TargetOf(SpotOf(r, p, follow))
  }

  method LookupTarget(r: Resolver, p: FsPath, follow: bool) returns (t: Target)
    requires PathOk(p)
    ensures t == OpenTarget(r, p, follow)
  {
    var e := Lookup(r, p, follow);
    if e.Ok? { return Found(e.value); }
    if e.error != ENOENT { return Fails(e.error); }
    var d := LookupDirAndBaseName(r, p);
    if Start(r, p).Err? || p.Cwd? || p.FdOnly? { return Fails(d.error); }
    t := CreateAt(r.fs, Start(r, p).value, PathOf(p), follow, d, SYMLINKS_MAX);
  }

  /** Where the path stops, if it leads to nothing. */
  function SpotOf(r: Resolver, p: FsPath, follow: bool): Spot
    requires Start(r, p).Ok?
  {
    PlaceOf(r.fs, Start(r, p).value, Names(PathOf(p)), EndsSlash(PathOf(p)), follow, SYMLINKS_MAX)
  }

  /** With the new entry in place, the path leads to it. */
  ghost predicate LeadsTo(r: Resolver, p: FsPath, follow: bool, dir: Entry, name: string, made: Entry)
    requires Start(r, p).Ok?
  {
    Meaning(WithFile(r.fs, dir, name, made), Start(r, p).value, TrimStart(PathOf(p)), follow, SYMLINKS_MAX) == Ok(made)
  }

  /** A file is created exactly where the path would lead to it, and EISDIR says that the path would lead to a directory
      that was made in its place, but to no file anywhere. */
  ghost predicate RightPlace(r: Resolver, p: FsPath, follow: bool, t: Target)
    requires Start(r, p).Ok?
  {
    && (t.Create? ==> Child(r.fs, t.dir, t.name) == Err(ENOENT))
    && (forall at, name, made | Child(r.fs, at, name) == Err(ENOENT) && r.fs.kind(made) == Other ::
          LeadsTo(r, p, follow, at, name, made) <==> t == Create(at, name))
    && (forall at, name, made | Child(r.fs, at, name) == Err(ENOENT) && r.fs.kind(made) == Dir && Sealed(r.fs, made) ::
          LeadsTo(r, p, follow, at, name, made) <==>
          t == Create(at, name) || (t == Fails(EISDIR) && SpotOf(r, p, follow) == Place(at, name, true)))
  }

  lemma {:induction false} MissingIsRight(r: Resolver, p: FsPath, follow: bool)
    requires Start(r, p).Ok? && MeaningOf(r, p, follow) == Err(ENOENT)
    ensures SpotOf(r, p, follow) != TooLong ==> RightPlace(r, p, follow, TargetOf(SpotOf(r, p, follow)))
    ensures ShortLinks(r.fs) ==> SpotOf(r, p, follow) != TooLong
  {
    var start, path := Start(r, p).value, PathOf(p);
    TrimKeeps(path);
    PlaceIsMissing(r.fs, start, Names(path), EndsSlash(path), follow, SYMLINKS_MAX);
    forall at, name, made | Child(r.fs, at, name) == Err(ENOENT) && Sealed(r.fs, made)
      ensures SpotOf(r, p, follow) != TooLong ==>
                (LeadsTo(r, p, follow, at, name, made) <==> Fills(r.fs, SpotOf(r, p, follow), at, name, made))
    {
      PathFills(r.fs, start, path, follow, SYMLINKS_MAX, at, name, made);
    }
    if ShortLinks(r.fs) { ShortLinksFit(r.fs, start, Names(path), EndsSlash(path), follow, SYMLINKS_MAX); }
  }

  /** `PlaceIsRight` for a path instead of its components. */
  lemma {:induction false} PathFills(fs: Fs, start: Entry, path: string, follow: bool, max: nat, at: Entry,
                                     name: string, made: Entry)
    requires Child(fs, at, name) == Err(ENOENT) && Sealed(fs, made)
    requires Meaning(fs, start, TrimStart(path), follow, max) == Err(ENOENT)
    ensures var spot := PlaceOf(fs, start, Names(path), EndsSlash(path), follow, max);
            spot != TooLong ==> (Meaning(WithFile(fs, at, name, made), start, TrimStart(path), follow, max) == Ok(made)
                                 <==> Fills(fs, spot, at, name, made))
  {
    TrimKeeps(path);
    PlaceIsRight(fs, start, Names(path), EndsSlash(path), follow, max, at, name, made);
  }

  /** There is nothing at the place yet. */
  lemma {:induction false} PlaceIsMissing(fs: Fs, d: Entry, names: seq<string>, slash: bool, follow: bool, b: nat)
    requires Walk(fs, d, names, slash, follow, b) == Err(ENOENT)
    ensures NothingAt(fs, PlaceOf(fs, d, names, slash, follow, b))
    decreases b, 1
  {
    var front, last := names[..|names| - 1], names[|names| - 1];
    assert names == front + [last];
    WalkSplits(fs, d, front, [last], slash, follow, b);
    if Walk(fs, d, front, true, true, b).Ok? {
      var w := Walk(fs, d, front, true, true, b).value;
      PlaceAtIsMissing(fs, w.0, last, slash, follow, w.1);
    }
  }

  lemma {:induction false} PlaceAtIsMissing(fs: Fs, d: Entry, last: string, slash: bool, follow: bool, b: nat)
    requires Walk(fs, d, [last], slash, follow, b) == Err(ENOENT)
    ensures NothingAt(fs, PlaceAt(fs, d, last, slash, follow, b))
    decreases b, 0
  {
    CanLookUp(fs, d, last, slash, follow, b);
    if Child(fs, d, last).Ok? {
      var next := Child(fs, d, last).value;
      LinkOfMissing(fs, d, last, slash, b, next);
      if fs.link(next).Ok? && fs.link(next).value != "" {
        var link := fs.link(next).value;
        TailStep(fs, d, last, slash, b, next, link);
        PlaceIsMissing(fs, LinkStart(fs, d, link), Names(link), EndsSlash(link) || slash, true, b - 1);
      }
    }
  }

  predicate NothingAt(fs: Fs, spot: Spot) { spot.Place? ==> Child(fs, spot.at, spot.name) == Err(ENOENT) }

  method CreateAt(fs: Fs, start: Entry, path: string, follow: bool, d: Result<(Entry, string)>, ghost max: nat)
    returns (t: Target)
    requires max == SYMLINKS_MAX && Meaning(fs, start, TrimStart(path), follow, max) == Err(ENOENT)
    requires d == match Meaning(fs, start, TrimStart(DirPart(path)), true, max)
                  case Err(err) => Err(err)
                  case Ok(dir) => Ok((dir, BasePart(path)))
    ensures t == TargetOf(PlaceOf(fs, start, Names(path), EndsSlash(path), follow, max))
  {
    ghost var names := Names(path);
    SplitOfMissing(fs, start, path, names, follow, max);
    if d.Err? { return Fails(d.error); }
    ghost var front, last := names[..|names| - 1], names[|names| - 1];
    ghost var w := Walk(fs, start, front, true, true, max).value;
    t := CreateBelow(fs, d.value.0, d.value.1, last, EndsSlash(path), follow, w.1);
  }

  /** The start of the search for the place: the directory part, and what is left for the base name. */
  lemma {:induction false} SplitOfMissing(fs: Fs, start: Entry, path: string, names: seq<string>, follow: bool,
                                          max: nat)
    requires names == Names(path) && Meaning(fs, start, TrimStart(path), follow, max) == Err(ENOENT)
    ensures names != [] && names[|names| - 1] != "" && !EndsSlash(names[|names| - 1])
    ensures BasePart(path) == BaseName(names[|names| - 1], EndsSlash(path))
    ensures var front, last := names[..|names| - 1], names[|names| - 1];
            var w := Walk(fs, start, front, true, true, max);
            var dir := Meaning(fs, start, TrimStart(DirPart(path)), true, max);
            if w.Err? then dir == Err(ENOENT)
            else
              && dir == Ok(w.value.0)
              && Walk(fs, w.value.0, [last], EndsSlash(path), follow, w.value.1) == Err(ENOENT)
  {
    TrimKeeps(path);
    DirOfMissing(fs, start, path, names, EndsSlash(TrimStart(path)), follow, max, max);
    BaseIs(path, names);
  }

  /** From the directory part on. */
  method CreateBelow(fs: Fs, d: Entry, base: string, ghost last: string, ghost slash: bool, follow: bool, ghost b: nat)
    returns (t: Target)
    requires base == BaseName(last, slash) && last != "" && !EndsSlash(last) && b <= SYMLINKS_MAX
    requires Walk(fs, d, [last], slash, follow, b) == Err(ENOENT)
    ensures t == TargetOf(PlaceAt(fs, d, last, slash, follow, b))
  {
    TrimBase(last, slash);
    var at, name := d, base;
    if follow {
      var f := FollowTail(fs, d, base, last, slash, b);
      if f.Err? { return Fails(f.error); }
      at, name := f.value.0, f.value.1;
      TrimEndKeeps(name);
    } else {
      CanLookUp(fs, d, last, slash, false, b);
    }
    return if EndsSlash(name) then Fails(EISDIR) else Create(at, name);
  }

  /** The directory part leads to a directory, and the base name is not in it. */
  ghost predicate BaseMissing(fs: Fs, start: Entry, path: string, max: nat) {
    var dir := Meaning(fs, start, TrimStart(DirPart(path)), true, max);
    dir.Ok? && Child(fs, dir.value, TrimEnd(BasePart(path))) == Err(ENOENT)
  }

  /** Asking for a directory changes nothing where there is one. */
  lemma {:induction false} WalkToDir(fs: Fs, d: Entry, names: seq<string>, follow: bool, b: nat)
    requires Walk(fs, d, names, false, follow, b).Ok?
    ensures fs.kind(Walk(fs, d, names, false, follow, b).value.0) == Dir ==>
              Walk(fs, d, names, true, follow, b) == Walk(fs, d, names, false, follow, b)
    decreases b, |names|
  {
    if names != [] {
      var next, rest := Child(fs, d, names[0]).value, names[1..];
      if fs.kind(next) == SymLink && (follow || rest != []) {
        var link := fs.link(next).value;
        var base := LinkStart(fs, d, link);
        if rest == [] && !EndsSlash(link) {
          WalkToDir(fs, base, Names(link), true, b - 1);
        }
        var target := Walk(fs, base, Names(link), EndsSlash(link) || |names| > 1, true, b - 1).value;
        WalkToDir(fs, target.0, rest, follow, target.1);
      } else {
        WalkToDir(fs, next, rest, follow, b);
      }
    }
  }

  lemma {:induction false} DotIsHere(fs: Fs, d: Entry, b: nat)
    requires Meaning(fs, d, ".", true, b).Ok?
    ensures Meaning(fs, d, ".", true, b) == Ok(d)
  {
    var dot := ["."];
    OneName(".");
    assert Names(".") == dot && dot[1..] == [] && !EndsSlash(".");
    assert Child(fs, d, dot[0]).Ok?;
    DotMeans(fs, d, b);
  }

  /** The lookup of the directory part is the walk along the front components. */
  lemma {:induction false} DirIsFront(fs: Fs, start: Entry, path: string, names: seq<string>, max: nat)
    requires names == Names(path) && names != [] && Meaning(fs, start, TrimStart(DirPart(path)), true, max).Ok?
    requires fs.kind(Meaning(fs, start, TrimStart(DirPart(path)), true, max).value) == Dir
    ensures var w := Walk(fs, start, names[..|names| - 1], true, true, max);
            w.Ok? && w.value.0 == Meaning(fs, start, TrimStart(DirPart(path)), true, max).value
  {
    var front, part := names[..|names| - 1], DirPart(path);
    DirMeans(path, names, part);
    TrimKeeps(part);
    if front == [] && !StartsSlash(path) {
      DotIsHere(fs, start, max);
    } else if !EndsSlash(TrimStart(part)) {
      WalkToDir(fs, start, front, true, max);
    }
  }

  lemma {:induction false} LastMissing(fs: Fs, d: Entry, names: seq<string>, slash: bool, follow: bool, b: nat)
    requires names != [] && Walk(fs, d, names[..|names| - 1], true, true, b).Ok?
    requires Child(fs, Walk(fs, d, names[..|names| - 1], true, true, b).value.0, names[|names| - 1]) == Err(ENOENT)
    ensures Walk(fs, d, names, slash, follow, b) == Err(ENOENT)
    ensures PlaceOf(fs, d, names, slash, follow, b)
         == Place(Walk(fs, d, names[..|names| - 1], true, true, b).value.0, names[|names| - 1], slash)
  {
    var front, last := names[..|names| - 1], names[|names| - 1];
    assert names == front + [last];
    WalkSplits(fs, d, front, [last], slash, follow, b);
    assert Child(fs, Walk(fs, d, front, true, true, b).value.0, [last][0]) == Err(ENOENT);
  }

  lemma {:induction false} SomeName(fs: Fs, dir: Entry, path: string)
    requires Child(fs, dir, TrimEnd(BasePart(path))) == Err(ENOENT)
    ensures Names(path) != []
  {
    BaseMeans(path);
    TrimEndKeeps(".");
  }

  /** Then the path leads to nothing, and the base name in that directory is its place. */
  lemma {:induction false} BaseMissingMeans(fs: Fs, start: Entry, path: string, follow: bool, max: nat)
    requires BaseMissing(fs, start, path, max)
    ensures Meaning(fs, start, TrimStart(path), follow, max) == Err(ENOENT)
    ensures var dir := Meaning(fs, start, TrimStart(DirPart(path)), true, max).value;
            PlaceOf(fs, start, Names(path), EndsSlash(path), follow, max)
            == Place(dir, TrimEnd(BasePart(path)), EndsSlash(path))
  {
    var names, dir := Names(path), Meaning(fs, start, TrimStart(DirPart(path)), true, max).value;
    SomeName(fs, dir, path);
    BaseIs(path, names);
    TrimBase(names[|names| - 1], EndsSlash(path));
    DirIsFront(fs, start, path, names, max);
    LastMissing(fs, start, names, EndsSlash(path), follow, max);
    TrimKeeps(path);
  }

  lemma {:induction false} MissingBaseIsCreated(r: Resolver, p: FsPath, follow: bool)
    requires Start(r, p).Ok? && BaseMissing(r.fs, Start(r, p).value, PathOf(p), SYMLINKS_MAX)
    ensures OpenTarget(r, p, follow)
         == if EndsSlash(PathOf(p)) then Fails(EISDIR) else Create(DirOf(r, p).value, BasePart(PathOf(p)))
  {
    BaseMissingMeans(r.fs, Start(r, p).value, PathOf(p), follow, SYMLINKS_MAX);
    BaseWithoutSlash(PathOf(p));
  }

  lemma {:induction false} BaseWithoutSlash(path: string)
    ensures !EndsSlash(path) ==> TrimEnd(BasePart(path)) == BasePart(path)
  {
    BaseMeans(path);
    TrimEndKeeps(BasePart(path));
    if Names(path) != [] {
      BaseIs(path, Names(path));
    }
  }
}
