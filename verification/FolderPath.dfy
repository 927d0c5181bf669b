/**
  The folder shown for a file: walked through the rows in memory, with the root's own name taken off
  again, or walked through the durable rows.  The parent graph may have holes and cycles.
 */
module FolderPath {
  import opened Records
  import opened Words

  /** Both walks give up after this many files.  What follows holds for every bound. */
  const MAX_DEPTH := 4096
  const SEPARATOR: Unit := 0x5C

  type Tree = map<FileId, Row>

  // ---- the chain of parents ----

  predicate IsRoot(t: Tree, id: FileId) {
    id in t && t[id].parent == id
  }

  /** From a file up to the root of its volume, if that is reached within so many files. */
  function Chain(t: Tree, id: FileId, depth: nat): (c: Option<seq<FileId>>)
    ensures c.Some? ==> c.value != [] && c.value[0] == id && |c.value| <= depth
    ensures c.Some? ==> IsRoot(t, c.value[|c.value| - 1]) && forall n :: 0 <= n < |c.value| ==> c.value[n] in t
    decreases depth
  {
    if depth == 0 || id !in t then None
    else if IsRoot(t, id) then Some([id])
    else
      match Chain(t, t[id].parent, depth - 1)
      case None => None
      case Some(c) => Some([id] + c)
  }

  /** A walk that has not met the root: each file's parent is the next. */
  ghost predicate Climbs(t: Tree, path: seq<FileId>) {
    forall n :: 0 <= n < |path| - 1 ==> path[n] in t && !IsRoot(t, path[n]) && t[path[n]].parent == path[n + 1]
  }

  /** A walk that comes back to a file never reaches a root from it. */
  lemma {:induction false} CycleHasNoRoot(t: Tree, loop: seq<FileId>, n: nat, depth: nat)
    requires Climbs(t, loop) && |loop| >= 2 && loop[|loop| - 1] == loop[0] && n < |loop| - 1
    ensures Chain(t, loop[n], depth).None?
    decreases depth
  {
    if depth > 0 {
      CycleHasNoRoot(t, loop, if n + 1 == |loop| - 1 then 0 else n + 1, depth - 1);
    }
  }

  lemma ChainStep(t: Tree, id: FileId, depth: nat)
    requires id in t && !IsRoot(t, id) && depth > 0
    ensures var above := Chain(t, t[id].parent, depth - 1);
            Chain(t, id, depth) == if above.None? then None else Some([id] + above.value)
  {
  }

  function Continued(path: seq<FileId>, here: Option<seq<FileId>>): Option<seq<FileId>>
    requires path != []
  {
    if here.None? then None else Some(path[..|path| - 1] + here.value)
  }

  lemma ContinuedLonger(path: seq<FileId>, here: Option<seq<FileId>>)
    requires |path| >= 2 && here.Some?
    ensures Continued(path, here) == Some([path[0]] + Continued(path[1..], here).value)
  {
    assert [path[0]] + (path[1..][..|path| - 2] + here.value) == path[..|path| - 1] + here.value;
  }

  /** The chain from the start is the walk so far followed by the chain from where it stands. */
  lemma {:induction false} ChainContinues(t: Tree, path: seq<FileId>, depth: nat)
    requires Climbs(t, path) && path != [] && |path| <= depth
    ensures Chain(t, path[0], depth) == Continued(path, Chain(t, path[|path| - 1], depth - (|path| - 1)))
    decreases |path|
  {
    var here := Chain(t, path[|path| - 1], depth - (|path| - 1));
    if |path| == 1 {
      assert path[..0] == [] && (here.Some? ==> [] + here.value == here.value);
    } else {
      var rest := path[1..];
      RestClimbs(t, path);
      assert rest[|rest| - 1] == path[|path| - 1];
      ChainContinues(t, rest, depth - 1);
      ChainStep(t, path[0], depth);
      if here.Some? { ContinuedLonger(path, here); }
    }
  }

  lemma RestClimbs(t: Tree, path: seq<FileId>)
    requires Climbs(t, path) && |path| > 1
    ensures Climbs(t, path[1..]) && path[0] in t && !IsRoot(t, path[0]) && t[path[0]].parent == path[1..][0]
  {
    var rest := path[1..];
    forall n | 0 <= n < |rest| - 1 ensures rest[n] in t && !IsRoot(t, rest[n]) && t[rest[n]].parent == rest[n + 1] {
      assert rest[n] == path[n + 1] && rest[n + 1] == path[n + 2];
    }
  }

  lemma ChainIsDistinct(t: Tree, path: seq<FileId>, i: nat, j: nat)
    requires Climbs(t, path) && i < j < |path| && path[i] == path[j]
    ensures forall depth: nat :: Chain(t, path[i], depth).None?
  {
    var loop := path[i..j + 1];
    forall n | 0 <= n < |loop| - 1
      ensures loop[n] in t && !IsRoot(t, loop[n]) && t[loop[n]].parent == loop[n + 1]
    {
      assert loop[n] == path[i + n] && loop[n + 1] == path[i + n + 1];
    }
    forall depth: nat ensures Chain(t, path[i], depth).None? {
      CycleHasNoRoot(t, loop, 0, depth);
    }
  }

  // ---- the names along the chain ----

  function NameOf(t: Tree, id: FileId): Name {
    if id in t then t[id].name else []
  }

  /** A separator goes before a name unless nothing has been written yet. */
  function Append(path: Name, name: Name): Name {
    (if path == [] then [] else path + [SEPARATOR]) + name
  }

  /** The path as the projection writes it, root name first. */
  function PathOf(t: Tree, chain: seq<FileId>): Name
    requires chain != []
  {
    if |chain| == 1 then NameOf(t, chain[0]) else Append(PathOf(t, chain[1..]), NameOf(t, chain[0]))
  }

  /** The files below the root, each with a separator before it. */
  function Segments(t: Tree, chain: seq<FileId>): Name
    requires chain != []
  {
    if |chain| == 1 then [] else Segments(t, chain[1..]) + [SEPARATOR] + NameOf(t, chain[0])
  }

  /** The host's comparison of names; it ignores case, and a name equals itself. */
  ghost predicate Reflexive(alike: (Name, Name) -> bool) {
    forall n :: alike(n, n)
  }

  /** Takes the root's name off a path. */
  function Strip(path: Name, root: Name, alike: (Name, Name) -> bool): Name {
    if root == [] then path
    else if path == root then []
    else if |path| > |root| && path[|root|] == SEPARATOR && alike(path[..|root|], root) then path[|root| + 1..]
    else path
  }

  function HotFolder(t: Tree, prefix: Name, chain: seq<FileId>, alike: (Name, Name) -> bool): Name
    requires chain != []
  {
    prefix + [SEPARATOR] + Strip(PathOf(t, chain), NameOf(t, chain[|chain| - 1]), alike)
  }

  function DurableFolder(t: Tree, prefix: Name, chain: seq<FileId>): Name
    requires chain != []
  {
    if |chain| == 1 then prefix + [SEPARATOR] else prefix + Segments(t, chain)
  }

  /** A root has no folder of its own; a file whose chain does not reach the root has none either. */
  function HotResult(t: Tree, prefix: Name, id: FileId, bound: nat, alike: (Name, Name) -> bool): Option<Name> {
    if id !in t then None
    else if IsRoot(t, id) then Some([])
    else
      match Chain(t, t[id].parent, bound)
      case None => None
      case Some(chain) => Some(HotFolder(t, prefix, chain, alike))
  }

  function DurableResult(t: Tree, prefix: Name, id: FileId, bound: nat): Option<Name> {
    if id !in t then None
    else if IsRoot(t, id) then Some([])
    else
      match Chain(t, t[id].parent, bound)
      case None => None
      case Some(chain) => Some(DurableFolder(t, prefix, chain))
  }

  /** For any parent graph, both ways fail or both name the same folder, if no name is empty. */
  lemma BothWaysAgree(t: Tree, prefix: Name, id: FileId, bound: nat, alike: (Name, Name) -> bool)
    requires Reflexive(alike) && forall k :: k in t ==> t[k].name != []
    ensures HotResult(t, prefix, id, bound, alike) == DurableResult(t, prefix, id, bound)
  {
    if id in t && !IsRoot(t, id) {
      var chain := Chain(t, t[id].parent, bound);
      if chain.Some? {
        FoldersAgreeIff(t, prefix, chain.value, alike);
      }
    }
  }

  lemma {:induction false} PathWithRootName(t: Tree, chain: seq<FileId>)
    requires chain != [] && NameOf(t, chain[|chain| - 1]) != []
    ensures PathOf(t, chain) == NameOf(t, chain[|chain| - 1]) + Segments(t, chain)
  {
    if |chain| > 1 {
      PathWithRootName(t, chain[1..]);
    }
  }

  lemma {:induction false} PathWithoutRootName(t: Tree, chain: seq<FileId>)
    requires |chain| >= 2 && NameOf(t, chain[|chain| - 1]) == []
    requires |chain| == 2 || NameOf(t, chain[|chain| - 2]) != []
    ensures [SEPARATOR] + PathOf(t, chain) == Segments(t, chain)
    ensures |chain| > 2 ==> PathOf(t, chain) != []
  {
    var above := chain[1..];
    assert above[|above| - 1] == chain[|chain| - 1];
    if |chain| == 2 {
      assert PathOf(t, above) == [] && Segments(t, above) == [];
    } else {
      assert |above| > 2 ==> above[|above| - 2] == chain[|chain| - 2];
      PathWithoutRootName(t, above);
      assert PathOf(t, above) != [];
    }
  }

  /** With no root name and no name below it, a separator is lost. */
  lemma {:induction false} PathLosesSeparator(t: Tree, chain: seq<FileId>)
    requires |chain| >= 2 && NameOf(t, chain[|chain| - 1]) == [] && NameOf(t, chain[|chain| - 2]) == []
    ensures |chain| == 2 ==> PathOf(t, chain) == []
    ensures |chain| > 2 ==> |PathOf(t, chain)| + 2 <= |Segments(t, chain)|
  {
    var above := chain[1..];
    if |chain| == 2 {
      assert PathOf(t, above) == [];
    } else {
      assert above[|above| - 1] == chain[|chain| - 1] && above[|above| - 2] == chain[|chain| - 2];
      PathLosesSeparator(t, above);
    }
  }

  lemma RootNameComesOff(root: Name, below: Name, alike: (Name, Name) -> bool)
    requires root != [] && below != [] && below[0] == SEPARATOR && Reflexive(alike)
    ensures Strip(root + below, root, alike) == below[1..]
  {
    assert (root + below)[..|root|] == root && (root + below)[|root| + 1..] == below[1..];
  }

  lemma NamedRootAgrees(t: Tree, prefix: Name, chain: seq<FileId>, alike: (Name, Name) -> bool)
    requires |chain| >= 2 && NameOf(t, chain[|chain| - 1]) != [] && Reflexive(alike)
    ensures HotFolder(t, prefix, chain, alike) == DurableFolder(t, prefix, chain)
  {
    var below := Segments(t, chain);
    PathWithRootName(t, chain);
    SegmentsStart(t, chain);
    RootNameComesOff(NameOf(t, chain[|chain| - 1]), below, alike);
    assert [SEPARATOR] + below[1..] == below;
    assert prefix + [SEPARATOR] + below[1..] == prefix + ([SEPARATOR] + below[1..]);
  }

  lemma NamelessRootAgrees(t: Tree, prefix: Name, chain: seq<FileId>, alike: (Name, Name) -> bool)
    requires |chain| >= 2 && NameOf(t, chain[|chain| - 1]) == []
    requires |chain| == 2 || NameOf(t, chain[|chain| - 2]) != []
    ensures HotFolder(t, prefix, chain, alike) == DurableFolder(t, prefix, chain)
  {
    PathWithoutRootName(t, chain);
    assert prefix + [SEPARATOR] + PathOf(t, chain) == prefix + ([SEPARATOR] + PathOf(t, chain));
  }

  lemma NamelessDisagrees(t: Tree, prefix: Name, chain: seq<FileId>, alike: (Name, Name) -> bool)
    requires |chain| > 2 && NameOf(t, chain[|chain| - 1]) == [] && NameOf(t, chain[|chain| - 2]) == []
    ensures HotFolder(t, prefix, chain, alike) != DurableFolder(t, prefix, chain)
  {
    PathLosesSeparator(t, chain);
    assert |HotFolder(t, prefix, chain, alike)| < |DurableFolder(t, prefix, chain)|;
  }

  /** The two folders are the same exactly if the root has a name, or there are fewer than two names
      below it, or the first of those is not empty; in particular if no name on the way is empty. */
  lemma FoldersAgreeIff(t: Tree, prefix: Name, chain: seq<FileId>, alike: (Name, Name) -> bool)
    requires chain != [] && Reflexive(alike)
    ensures HotFolder(t, prefix, chain, alike) == DurableFolder(t, prefix, chain) <==> (
              || NameOf(t, chain[|chain| - 1]) != []
              || |chain| <= 2
              || NameOf(t, chain[|chain| - 2]) != [])
  {
    if |chain| == 1 {
      assert prefix + [SEPARATOR] + [] == prefix + [SEPARATOR];
    } else if NameOf(t, chain[|chain| - 1]) != [] {
      NamedRootAgrees(t, prefix, chain, alike);
    } else if |chain| == 2 || NameOf(t, chain[|chain| - 2]) != [] {
      NamelessRootAgrees(t, prefix, chain, alike);
    } else {
      NamelessDisagrees(t, prefix, chain, alike);
    }
  }

  lemma {:induction false} SegmentsStart(t: Tree, chain: seq<FileId>)
    requires |chain| >= 2
    ensures Segments(t, chain) != [] && Segments(t, chain)[0] == SEPARATOR
  {
    if |chain| > 2 {
      SegmentsStart(t, chain[1..]);
    }
  }

  // ---- what a folder says ----

  /** From `start` upwards: each file lies in the next, and the last, and only that, is its own parent. */
  ghost predicate WayUp(t: Tree, start: FileId, path: seq<FileId>) {
    && path != [] && path[0] == start && (forall n :: 0 <= n < |path| ==> path[n] in t)
    && (forall n :: 0 <= n < |path| - 1 ==> LiesInNext(t, path, n))
    && t[path[|path| - 1]].parent == path[|path| - 1]
  }

  ghost predicate LiesInNext(t: Tree, path: seq<FileId>, n: nat)
    requires n < |path| - 1 && path[n] in t
  {
    t[path[n]].parent == path[n + 1] && t[path[n]].parent != path[n]
  }

  lemma RestWayUp(t: Tree, start: FileId, path: seq<FileId>)
    requires WayUp(t, start, path) && |path| > 1
    ensures t[start].parent != start && WayUp(t, t[start].parent, path[1..])
  {
    var rest := path[1..];
    assert LiesInNext(t, path, 0);
    assert forall n :: 0 <= n < |rest| ==> rest[n] == path[n + 1];
    forall n | 0 <= n < |rest| - 1 ensures LiesInNext(t, rest, n) {
      assert LiesInNext(t, path, n + 1);
    }
  }

  lemma WayUpFurther(t: Tree, start: FileId, rest: seq<FileId>)
    requires start in t && t[start].parent != start && WayUp(t, t[start].parent, rest)
    ensures WayUp(t, start, [start] + rest)
  {
    var path := [start] + rest;
    assert forall n :: 0 < n < |path| ==> path[n] == rest[n - 1];
    forall n | 0 <= n < |path| - 1 ensures LiesInNext(t, path, n) {
      assert n > 0 ==> LiesInNext(t, rest, n - 1);
    }
  }

  /** The chain is the way up, if there is one within the bound. */
  lemma {:induction false} ChainIff(t: Tree, start: FileId, path: seq<FileId>, bound: nat)
    ensures Chain(t, start, bound) == Some(path) <==> WayUp(t, start, path) && |path| <= bound
    decreases bound
  {
    if WayUp(t, start, path) {
      if |path| == 1 {
        assert path == [start];
      } else {
        RestWayUp(t, start, path);
      }
    }
    if bound > 0 && start in t && !IsRoot(t, start) && path != [] {
      var rest := path[1..];
      ChainIff(t, t[start].parent, rest, bound - 1);
      assert path == [path[0]] + rest;
      if WayUp(t, t[start].parent, rest) {
        WayUpFurther(t, start, rest);
      }
    }
  }

  /** The parts between separators. */
  function Split(s: Name): (parts: seq<Name>)
    ensures parts != []
  {
    if s == [] then [[]]
    else
      var rest := Split(s[1..]);
      if s[0] == SEPARATOR then [[]] + rest else [[s[0]] + rest[0]] + rest[1..]
  }

  lemma {:induction false} SplitWhole(a: Name)
    requires SEPARATOR !in a
    ensures Split(a) == [a]
  {
    if a != [] {
      assert a == [a[0]] + a[1..];
      SplitWhole(a[1..]);
    }
  }

  lemma {:induction false} SplitLast(s: Name, a: Name)
    requires SEPARATOR !in a
    ensures Split(s + [SEPARATOR] + a) == Split(s) + [a]
  {
    if s == [] {
      assert [SEPARATOR] + a == s + [SEPARATOR] + a && ([SEPARATOR] + a)[1..] == a;
      SplitWhole(a);
    } else {
      SplitLast(s[1..], a);
      assert (s + [SEPARATOR] + a)[1..] == s[1..] + [SEPARATOR] + a;
    }
  }

  /** Neither the volume's prefix nor a name has a separator in it. */
  ghost predicate Separable(t: Tree, prefix: Name) {
    SEPARATOR !in prefix && forall k :: k in t ==> SEPARATOR !in t[k].name
  }

  /** The names below the root, outermost first. */
  function NamesDown(t: Tree, chain: seq<FileId>): (names: seq<Name>)
    requires chain != [] && forall n :: 0 <= n < |chain| ==> chain[n] in t
    ensures |names| == |chain| - 1 && forall n :: 0 <= n < |names| ==> names[n] == t[chain[|chain| - 2 - n]].name
  {
    if |chain| == 1 then [] else NamesDown(t, chain[1..]) + [t[chain[0]].name]
  }

  lemma {:induction false} SegmentsSplit(t: Tree, prefix: Name, chain: seq<FileId>)
    requires chain != [] && (forall n :: 0 <= n < |chain| ==> chain[n] in t) && Separable(t, prefix)
    ensures Split(prefix + Segments(t, chain)) == [prefix] + NamesDown(t, chain)
  {
    if |chain| == 1 {
      SplitWhole(prefix);
      assert prefix + [] == prefix;
    } else {
      var above, name := chain[1..], t[chain[0]].name;
      SegmentsSplit(t, prefix, above);
      SplitLast(prefix + Segments(t, above), name);
      assert prefix + Segments(t, chain) == prefix + Segments(t, above) + [SEPARATOR] + name;
      assert [prefix] + NamesDown(t, above) + [name] == [prefix] + (NamesDown(t, above) + [name]);
    }
  }

  /** The names on the way up without the root's, from the last one back. */
  function NamesAbove(t: Tree, path: seq<FileId>): seq<Name>
    requires path != [] && forall n :: 0 <= n < |path| ==> path[n] in t
  {
    seq(|path| - 1, n requires 0 <= n < |path| - 1 => t[path[|path| - 2 - n]].name)
  }

  /** The folder on disk, taken apart at the separators, is the volume's prefix and the names of the folders
      above the file, outermost first and without the root's; there is one exactly if the way up to the
      root is short enough. */
  lemma FolderSpellsPath(t: Tree, prefix: Name, id: FileId, bound: nat, path: seq<FileId>)
    requires id in t && t[id].parent != id && Separable(t, prefix) && WayUp(t, t[id].parent, path)
    ensures DurableResult(t, prefix, id, bound).Some? <==> |path| <= bound
    ensures DurableResult(t, prefix, id, bound).Some? ==>
              Split(DurableResult(t, prefix, id, bound).value)
              == if |path| == 1 then [prefix, []] else [prefix] + NamesAbove(t, path)
  {
    ChainIsWayUp(t, t[id].parent, path, bound);
    SpelledOut(t, prefix, path);
  }

  lemma ChainIsWayUp(t: Tree, start: FileId, path: seq<FileId>, bound: nat)
    requires WayUp(t, start, path)
    ensures Chain(t, start, bound) == if |path| <= bound then Some(path) else None
  {
    ChainIff(t, start, path, bound);
    var chain := Chain(t, start, bound);
    if chain.Some? {
      ChainIff(t, start, chain.value, bound);
      OneWayUp(t, start, path, chain.value);
    }
  }

  lemma SpelledOut(t: Tree, prefix: Name, path: seq<FileId>)
    requires path != [] && (forall n :: 0 <= n < |path| ==> path[n] in t) && Separable(t, prefix)
    ensures Split(DurableFolder(t, prefix, path))
            == if |path| == 1 then [prefix, []] else [prefix] + NamesAbove(t, path)
  {
    if |path| == 1 {
      SplitWhole(prefix);
      SplitLast(prefix, []);
      assert prefix + [SEPARATOR] + [] == prefix + [SEPARATOR];
    } else {
      SegmentsSplit(t, prefix, path);
      assert NamesDown(t, path) == NamesAbove(t, path);
    }
  }

  lemma {:induction false} OneWayUp(t: Tree, start: FileId, a: seq<FileId>, b: seq<FileId>)
    requires WayUp(t, start, a) && WayUp(t, start, b)
    ensures a == b
    decreases |a|
  {
    if |a| > 1 {
      var c, d := a[1..], b[1..];
      RestWayUp(t, start, a);
      assert |b| > 1 && a == [start] + c && b == [start] + d;
      RestWayUp(t, start, b);
      OneWayUp(t, t[start].parent, c, d);
    } else if |b| > 1 {
      RestWayUp(t, start, b);
    }
  }

  /** Without a way up there is no folder. */
  lemma NoWayUpNoFolder(t: Tree, prefix: Name, id: FileId, bound: nat)
    requires id in t && t[id].parent != id && DurableResult(t, prefix, id, bound).Some?
    ensures exists path :: WayUp(t, t[id].parent, path)
  {
    var chain := Chain(t, t[id].parent, bound).value;
    ChainIff(t, t[id].parent, chain, bound);
  }

  // ---- the walks ----

  /** A walk from `start` to `current` over the files `parts`. */
  ghost predicate Walked(t: Tree, start: FileId, parts: seq<FileId>, current: FileId) {
    Climbs(t, parts + [current]) && (parts + [current])[0] == start
  }

  lemma Revisited(t: Tree, start: FileId, parts: seq<FileId>, current: FileId, bound: nat)
    requires Walked(t, start, parts, current) && |parts| < bound && current in parts
    ensures Chain(t, start, bound).None?
  {
    var walked := parts + [current];
    var i :| 0 <= i < |parts| && parts[i] == current;
    assert walked[i] == walked[|parts|];
    ChainIsDistinct(t, walked, i, |parts|);
    ChainContinues(t, walked, bound);
    assert Chain(t, walked[i], bound - |parts|).None?;
  }

  lemma WalkedOn(t: Tree, start: FileId, parts: seq<FileId>, current: FileId)
    requires Walked(t, start, parts, current) && current in t && !IsRoot(t, current)
    ensures Walked(t, start, parts + [current], t[current].parent)
  {
    var walked := parts + [current];
    var further := walked + [t[current].parent];
    forall n | 0 <= n < |further| - 1
      ensures further[n] in t && !IsRoot(t, further[n]) && t[further[n]].parent == further[n + 1]
    {
      if n < |walked| - 1 {
        assert walked[n] in t && t[walked[n]].parent == walked[n + 1];
      }
    }
  }

  lemma Arrived(t: Tree, start: FileId, parts: seq<FileId>, current: FileId, bound: nat)
    requires Walked(t, start, parts, current) && |parts| < bound
    ensures current !in t ==> Chain(t, start, bound).None?
    ensures IsRoot(t, current) ==> Chain(t, start, bound) == Some(parts + [current])
  {
    ChainContinues(t, parts + [current], bound);
    assert (parts + [current])[..|parts|] == parts;
  }

  lemma ShortOfRoot(t: Tree, start: FileId, parts: seq<FileId>, current: FileId, bound: nat)
    requires Walked(t, start, parts, current) && |parts| == bound
    ensures Chain(t, start, bound).None?
  {
    if bound == 0 {
      return;
    }
    var walked, last := parts + [current], parts[bound - 1];
    forall n | 0 <= n < |parts| - 1
      ensures parts[n] in t && !IsRoot(t, parts[n]) && t[parts[n]].parent == parts[n + 1]
    {
      assert walked[n] == parts[n] && walked[n + 1] == parts[n + 1];
    }
    ChainContinues(t, parts, bound);
    assert walked[bound - 1] == last;
    assert Chain(t, t[last].parent, 0).None?;
  }

  /** The walk through memory stops at the root, at a hole, at a file met before or at the bound. */
  method Climb(t: Tree, start: FileId, bound: nat) returns (reachedRoot: bool, parts: seq<FileId>)
    ensures reachedRoot <==> Chain(t, start, bound).Some?
    ensures reachedRoot ==> parts == Chain(t, start, bound).value
  {
    var visited: set<FileId>, current: FileId := {}, start;
    parts := [];
    for depth := 0 to bound
      invariant |parts| == depth && Walked(t, start, parts, current)
      invariant forall x :: x in visited <==> x in parts
    {
      if current in visited {
        Revisited(t, start, parts, current, bound);
        return false, [];
      }
      Arrived(t, start, parts, current, bound);
      if current !in t {
        return false, [];
      }
      if t[current].parent == current {
        return true, parts + [current];
      }
      WalkedOn(t, start, parts, current);
      visited := visited + {current};
      parts := parts + [current];
      current := t[current].parent;
    }
    ShortOfRoot(t, start, parts, current, bound);
    reachedRoot := false;
  }

  method ReconstructPath(t: Tree, start: FileId, bound: nat) returns (reachedRoot: bool, path: Name)
    ensures reachedRoot <==> Chain(t, start, bound).Some?
    ensures reachedRoot ==> path == PathOf(t, Chain(t, start, bound).value)
  {
    var parts;
    reachedRoot, parts := Climb(t, start, bound);
    path := [];
    if reachedRoot {
      path := JoinReversed(t, parts);
    }
  }

  /** Writes the names root first. */
  method JoinReversed(t: Tree, parts: seq<FileId>) returns (path: Name)
    requires parts != []
    ensures path == PathOf(t, parts)
  {
    path := [];
    var n := |parts|;
    while n > 0
      invariant 0 <= n <= |parts|
      invariant n == |parts| ==> path == []
      invariant n < |parts| ==> path == PathOf(t, parts[n..])
    {
      n := n - 1;
      assert n + 1 < |parts| ==> parts[n..][1..] == parts[n + 1..];
      if path != [] {
        path := path + [SEPARATOR];
      }
      path := path + NameOf(t, parts[n]);
    }
    assert parts[0..] == parts;
  }

  /** Finds the root's name again and takes it off; the walk is bounded by the number of files. */
  method StripVolumeRootName(t: Tree, entryCount: nat, start: FileId, reconstructed: Name, ghost bound: nat,
                             alike: (Name, Name) -> bool) returns (r: Name)
    requires Chain(t, start, bound).Some? && |t| <= entryCount
    ensures var chain := Chain(t, start, bound).value; r == Strip(reconstructed, NameOf(t, chain[|chain| - 1]), alike)
  {
    var current := start;
    ghost var chain := Chain(t, start, bound).value;
    ghost var rest := chain;
    ChainFits(t, start, bound);
    var depth := 0;
    while depth <= entryCount
      invariant depth + |rest| == |chain| <= |t| && rest != [] && rest[|rest| - 1] == chain[|chain| - 1]
      invariant Chain(t, current, bound - depth) == Some(rest)
    {
      OneUp(t, current, bound - depth);
      if t[current].parent == current {
        return Strip(reconstructed, NameOf(t, current), alike);
      }
      rest := rest[1..];
      current := t[current].parent;
      depth := depth + 1;
    }
    r := reconstructed;
  }

  lemma OneUp(t: Tree, id: FileId, depth: nat)
    requires Chain(t, id, depth).Some?
    ensures id in t && depth > 0
    ensures var c := Chain(t, id, depth).value;
            if t[id].parent == id then c == [id]
            else |c| > 1 && c[1..][|c| - 2] == c[|c| - 1] && Chain(t, t[id].parent, depth - 1) == Some(c[1..])
  {
  }

  lemma {:induction false} ChainClimbs(t: Tree, id: FileId, depth: nat)
    requires Chain(t, id, depth).Some?
    ensures Climbs(t, Chain(t, id, depth).value)
    decreases depth
  {
    var chain := Chain(t, id, depth).value;
    if |chain| > 1 {
      var rest := Chain(t, t[id].parent, depth - 1).value;
      ChainClimbs(t, t[id].parent, depth - 1);
      assert chain == [id] + rest;
      forall n | 0 <= n < |chain| - 1
        ensures chain[n] in t && !IsRoot(t, chain[n]) && t[chain[n]].parent == chain[n + 1]
      {
        if n > 0 {
          assert chain[n] == rest[n - 1] && chain[n + 1] == rest[n];
        }
      }
    }
  }

  /** A chain that reaches the root has no file twice, so it is no longer than there are files. */
  lemma ChainFits(t: Tree, id: FileId, depth: nat)
    requires Chain(t, id, depth).Some?
    ensures |Chain(t, id, depth).value| <= |t|
  {
    var chain := Chain(t, id, depth).value;
    ChainClimbs(t, id, depth);
    forall i, j | 0 <= i < j < |chain| ensures chain[i] != chain[j] {
      if chain[i] == chain[j] {
        SuffixIsChain(t, id, depth, i);
        ChainIsDistinct(t, chain, i, j);
        assert false;
      }
    }
    DistinctFits(chain, t.Keys);
  }

  lemma {:induction false} SuffixIsChain(t: Tree, id: FileId, depth: nat, n: nat)
    requires Chain(t, id, depth).Some? && n < |Chain(t, id, depth).value|
    ensures Chain(t, Chain(t, id, depth).value[n], depth - n).Some?
    decreases depth
  {
    if n > 0 {
      SuffixIsChain(t, t[id].parent, depth - 1, n - 1);
    }
  }

  lemma {:induction false} DistinctFits(s: seq<FileId>, all: set<FileId>)
    requires forall i, j :: 0 <= i < j < |s| ==> s[i] != s[j]
    requires forall n :: 0 <= n < |s| ==> s[n] in all
    ensures |s| <= |all|
  {
    if s != [] {
      var last := s[|s| - 1];
      DistinctFits(s[..|s| - 1], all - {last});
    }
  }

  method MaterializeCandidateFolder(t: Tree, entryCount: nat, prefix: Name, id: FileId, bound: nat,
                                    alike: (Name, Name) -> bool) returns (folder: Option<Name>)
    requires |t| <= entryCount
    ensures folder == HotResult(t, prefix, id, bound, alike)
  {
    if id !in t {
      return None;
    }
    if t[id].parent == id {
      return Some([]);
    }
    var reachedRoot, path := ReconstructPath(t, t[id].parent, bound);
    if !reachedRoot {
      return None;
    }
    var stripped := StripVolumeRootName(t, entryCount, t[id].parent, path, bound, alike);
    return Some(prefix + [SEPARATOR] + stripped);
  }

  /** The durable walk keeps no record of where it has been: a cycle just uses up the bound. */
  method MaterializeCandidateFolderDurable(t: Tree, prefix: Name, id: FileId, bound: nat) returns (folder: Option<Name>)
    ensures folder == DurableResult(t, prefix, id, bound)
  {
    if id !in t {
      return None;
    }
    if t[id].parent == id {
      return Some([]);
    }
    var current, start := t[id].parent, t[id].parent;
    var segments: seq<FileId> := [];
    for depth := 0 to bound
      invariant |segments| == depth && Walked(t, start, segments, current)
    {
      Arrived(t, start, segments, current, bound);
      if current !in t {
        return None;
      }
      if t[current].parent == current {
        var joined := JoinSegments(t, segments, current);
        return Some(if segments == [] then prefix + [SEPARATOR] else prefix + joined);
      }
      WalkedOn(t, start, segments, current);
      segments := segments + [current];
      current := t[current].parent;
    }
    ShortOfRoot(t, start, segments, current, bound);
    folder := None;
  }

  method JoinSegments(t: Tree, segments: seq<FileId>, root: FileId) returns (joined: Name)
    ensures joined == Segments(t, segments + [root])
  {
    joined := [];
    var n := |segments|;
    ghost var chain := segments + [root];
    assert chain[|segments|..] == [root];
    while n > 0
      invariant 0 <= n <= |segments| && joined == Segments(t, chain[n..])
    {
      n := n - 1;
      assert chain[n..][1..] == chain[n + 1..] && chain[n..][0] == segments[n];
      joined := joined + [SEPARATOR] + NameOf(t, segments[n]);
    }
    assert chain[0..] == chain;
  }

  /** Two empty names in a row at the top: the two walks name different folders. */
  lemma EmptyNamesDisagree(bound: nat, alike: (Name, Name) -> bool)
    requires bound >= 3 && Reflexive(alike)
    ensures var t: Tree := NamelessTop();
            HotResult(t, [], 8, bound, alike) != DurableResult(t, [], 8, bound)
  {
    var t: Tree := NamelessTop();
    assert Chain(t, 5, bound - 2) == Some([5]);
    ChainStep(t, 6, bound - 1);
    ChainStep(t, 7, bound);
    assert [6] + [5] == [6, 5] && [7] + [6, 5] == [7, 6, 5];
    FoldersAgreeIff(t, [], [7, 6, 5], alike);
  }

  /** File 8 in folder 7, in the nameless folder 6 of the nameless root 5. */
  function NamelessTop(): Tree {
    map[5 := Row(5, [], BLANK.facts), 6 := Row(5, [], BLANK.facts), 7 := Row(6, [0x61], BLANK.facts),
        8 := Row(7, [0x62], BLANK.facts)]
  }
}
