/**
 A breadth-first walk that enters each file once, with the directory it first met it in
 (xtask/src/unreached_module.rs: the loop of graph_from), over any declarations.
 */
module Walks {

  /** A path by its components. */
  type Path = seq<string>

  /** A file to walk and the directory its submodules live in. */
  datatype Pending = Pending(file: Path, childrenDir: Path)

  /** What each pending file declares. */
  type Children = Pending -> seq<Pending>

  // ---------------------------------------------------------------------------------------------
  // Chains
  // ---------------------------------------------------------------------------------------------

  ghost predicate Links(children: Children, chain: seq<Pending>) {
    forall i, j :: 0 <= i && j == i + 1 && j < |chain| ==> chain[j] in children(chain[i])
  }

  /** A chain of declarations from a root. */
  ghost predicate IsChain(roots: seq<Pending>, children: Children, chain: seq<Pending>) {
    chain != [] && chain[0] in roots && Links(children, chain)
  }

  ghost predicate Reachable(roots: seq<Pending>, children: Children, p: Pending) {
    exists chain :: IsChain(roots, children, chain) && chain[|chain| - 1] == p
  }

  ghost predicate FileIsReachable(roots: seq<Pending>, children: Children, file: Path) {
    exists dir :: Reachable(roots, children, Pending(file, dir))
  }

  /** Every reachable file has one directory for its children. */
  ghost predicate SingleDirectories(roots: seq<Pending>, children: Children) {
    forall file, a, b ::
      Reachable(roots, children, Pending(file, a)) && Reachable(roots, children, Pending(file, b)) ==> a == b
  }

  lemma RootIsReachable(roots: seq<Pending>, children: Children, p: Pending)
    requires p in roots
    ensures Reachable(roots, children, p)
  {
    assert IsChain(roots, children, [p]);
  }

  lemma ChildIsReachable(roots: seq<Pending>, children: Children, p: Pending, c: Pending)
    requires Reachable(roots, children, p) && c in children(p)
    ensures Reachable(roots, children, c)
  {
    var chain :| IsChain(roots, children, chain) && chain[|chain| - 1] == p;
    var longer := chain + [c];
    forall i, j | 0 <= i && j == i + 1 && j < |longer| ensures longer[j] in children(longer[i]) {
      if j < |chain| { assert chain[j] in children(chain[i]); }
    }
    assert IsChain(roots, children, longer);
  }

  // ---------------------------------------------------------------------------------------------
  // The walk
  // ---------------------------------------------------------------------------------------------

  function FilesOf(s: seq<Pending>): set<Path> {
    if s == [] then {} else FilesOf(s[..|s| - 1]) + {s[|s| - 1].file}
  }

  lemma FilesOneMore(s: seq<Pending>, p: Pending)
    ensures FilesOf(s + [p]) == FilesOf(s) + {p.file}
  {
    assert (s + [p])[..|s|] == s;
  }

  lemma {:induction false} FileIn(s: seq<Pending>, p: Pending)
    requires p in s
    ensures p.file in FilesOf(s)
  {
    if p != s[|s| - 1] { FileIn(s[..|s| - 1], p); }
  }

  lemma {:induction false} FileOf(s: seq<Pending>, file: Path) returns (p: Pending)
    requires file in FilesOf(s)
    ensures p in s && p.file == file
  {
    p := s[|s| - 1];
    if p.file != file { p := FileOf(s[..|s| - 1], file); }
  }

  /** Whatever the pendings of `s` declare is reached. */
  ghost predicate Expanded(children: Children, s: seq<Pending>, reached: set<Path>) {
    forall p, c :: p in s && c in children(p) ==> c.file in reached
  }

  ghost predicate AllIn(s: seq<Pending>, files: set<Path>) {
    forall p :: p in s ==> p.file in files
  }

  /** The declarations that name a file for the first time, `reached` having been met before. */
  function Added(declared: seq<Pending>, reached: set<Path>): seq<Pending> {
    if declared == [] then []
    else
      var before, last := Added(declared[..|declared| - 1], reached), declared[|declared| - 1];
      if last.file in reached + FilesOf(before) then before else before + [last]
  }

  /** The visit list once its first `n` files have been expanded, in order: the first declaration of a file wins. */
  function Grown(roots: seq<Pending>, children: Children, n: nat): seq<Pending> {
    if n == 0 then roots
    else
      var before := Grown(roots, children, n - 1);
      if n <= |before| then before + Added(children(before[n - 1]), FilesOf(before)) else before
  }

  lemma {:induction false} FilesAppend(s: seq<Pending>, t: seq<Pending>)
    ensures FilesOf(s + t) == FilesOf(s) + FilesOf(t)
  {
    if t == [] {
      assert s + t == s;
    } else {
      FilesAppend(s, t[..|t| - 1]);
      assert (s + t)[..|s + t| - 1] == s + t[..|t| - 1];
    }
  }

  lemma {:induction false} AddedAreDeclared(declared: seq<Pending>, reached: set<Path>)
    ensures forall c :: c in Added(declared, reached) ==> c in declared
    ensures forall c :: c in declared ==> c.file in reached + FilesOf(Added(declared, reached))
  {
    if declared != [] {
      var init, last := declared[..|declared| - 1], declared[|declared| - 1];
      AddedAreDeclared(init, reached);
      FilesOneMore(Added(init, reached), last);
      assert forall c :: c in declared ==> c in init || c == last;
    }
  }

  lemma FilesOfOne(p: Pending)
    ensures FilesOf([p]) == {p.file}
  {
    FilesOneMore([], p);
    assert [] + [p] == [p];
  }

  lemma AddedOneMore(declared: seq<Pending>, c: Pending, reached: set<Path>)
    ensures var before := Added(declared, reached);
      Added(declared + [c], reached) == if c.file in reached + FilesOf(before) then before else before + [c]
  {
    assert (declared + [c])[..|declared|] == declared;
  }

  lemma AddedOfOne(a: Pending, reached: set<Path>)
    requires a.file !in reached
    ensures Added([a], reached) == [a]
  {
    var none: seq<Pending> := [];
    AddedOneMore(none, a, reached);
    assert none + [a] == [a];
  }

  lemma AddedAgain(declared: seq<Pending>, b: Pending, reached: set<Path>)
    requires b.file in FilesOf(Added(declared, reached))
    ensures Added(declared + [b], reached) == Added(declared, reached)
  {
    AddedOneMore(declared, b, reached);
  }

  /** Of two declarations of one new file, the first is added. */
  lemma AddedOfTwo(a: Pending, b: Pending, reached: set<Path>)
    requires a.file == b.file && a.file !in reached
    ensures Added([a] + [b], reached) == [a]
  {
    AddedOfOne(a, reached);
    FilesOfOne(a);
    AddedAgain([a], b, reached);
  }

  lemma GrownOneMore(roots: seq<Pending>, children: Children, n: nat, before: seq<Pending>)
    requires Grown(roots, children, n) == before
    ensures Grown(roots, children, n + 1) ==
      if n < |before| then before + Added(children(before[n]), FilesOf(before)) else before
  {
  }

  /** The next declaration joins the queue when its file has not been met. */
  lemma MeetOneMore(declared: seq<Pending>, i: nat, queue: seq<Pending>, reached: set<Path>)
    requires i < |declared|
    ensures var c, before, after := declared[i], Added(declared[..i], reached), Added(declared[..i + 1], reached);
      if c.file in reached + FilesOf(before) then after == before
      else
        && queue + after == (queue + before) + [c]
        && reached + FilesOf(after) == (reached + FilesOf(before)) + {c.file}
  {
    AddedOneMore(declared[..i], declared[i], reached);
    assert declared[..i + 1] == declared[..i] + [declared[i]];
    FilesOneMore(Added(declared[..i], reached), declared[i]);
  }

  /** Adds the files one pending declares, queueing those not met before. */
  method Expand(declared: seq<Pending>, queue: seq<Pending>, reached: set<Path>)
      returns (queue': seq<Pending>, reached': set<Path>)
    ensures queue' == queue + Added(declared, reached) && reached' == reached + FilesOf(Added(declared, reached))
  {
    queue', reached' := queue, reached;
    ghost var added: seq<Pending> := [];
    for i := 0 to |declared|
      invariant added == Added(declared[..i], reached)
      invariant queue' == queue + added && reached' == reached + FilesOf(added)
    {
      var c := declared[i];
      MeetOneMore(declared, i, queue, reached);
      if c.file !in reached' { reached', queue' := reached' + {c.file}, queue' + [c]; }
      added := Added(declared[..i + 1], reached);
    }
    assert declared[..|declared|] == declared;
  }

  lemma FewerLeft(universe: set<Path>, a: set<Path>, b: set<Path>)
    requires a < b <= universe
    ensures |universe - b| < |universe - a|
  {
    assert universe - a == (universe - b) + (b - a);
    assert b - a != {};
  }

  /** What holds between two steps: `done` has been expanded, `queue` waits. */
  ghost predicate Underway(roots: seq<Pending>, children: Children, universe: set<Path>,
                           done: seq<Pending>, queue: seq<Pending>, reached: set<Path>) {
    && done + queue == Grown(roots, children, |done|)
    && reached == FilesOf(done + queue)
    && Expanded(children, done, reached) && reached <= universe
  }

  /** Declarations name only files of the universe. */
  ghost predicate Covers(universe: set<Path>, children: Children) {
    forall p :: AllIn(children(p), universe)
  }

  lemma Requeue(done: seq<Pending>, queue: seq<Pending>, added: seq<Pending>)
    requires queue != []
    ensures (done + queue) + added == (done + [queue[0]]) + (queue[1..] + added)
  {
  }

  lemma {:induction false} FilesWithin(s: seq<Pending>, universe: set<Path>)
    requires AllIn(s, universe)
    ensures FilesOf(s) <= universe
  {
    if s != [] { FilesWithin(s[..|s| - 1], universe); }
  }

  lemma ExpandedOneMore(children: Children, done: seq<Pending>, p: Pending, reached: set<Path>, grown: set<Path>)
    requires Expanded(children, done, reached) && reached <= grown && AllIn(children(p), grown)
    ensures Expanded(children, done + [p], grown)
  {
    forall q, c | q in done + [p] && c in children(q) ensures c.file in grown {
      if q in done { assert c.file in reached; }
    }
  }

  /** Expanding the head of the queue keeps the walk underway. */
  lemma StepKeepsUnderway(roots: seq<Pending>, children: Children, universe: set<Path>,
                          done: seq<Pending>, queue: seq<Pending>, reached: set<Path>)
    requires Underway(roots, children, universe, done, queue, reached) && queue != []
    requires Covers(universe, children)
    ensures var added := Added(children(queue[0]), reached);
      Underway(roots, children, universe, done + [queue[0]], queue[1..] + added, reached + FilesOf(added))
  {
    var p, visited := queue[0], done + queue;
    var added := Added(children(p), reached);
    var grown := reached + FilesOf(added);
    assert visited[|done|] == p && p in visited;
    AddedAreDeclared(children(p), reached);
    Requeue(done, queue, added);
    FilesAppend(visited, added);
    assert AllIn(children(p), universe);
    FilesWithin(added, universe);
    ExpandedOneMore(children, done, p, reached, grown);
    assert Grown(roots, children, |done| + 1) == visited + added;
  }

  lemma AddedShrinksTheRest(declared: seq<Pending>, reached: set<Path>, universe: set<Path>)
    requires reached + FilesOf(Added(declared, reached)) <= universe
    ensures var added := Added(declared, reached);
      added == [] || |universe - (reached + FilesOf(added))| < |universe - reached|
  {
    var added := Added(declared, reached);
    if added != [] {
      AddedIsNew(declared, reached);
      FewerLeft(universe, reached, reached + FilesOf(added));
    }
  }

  lemma {:induction false} AddedIsNew(declared: seq<Pending>, reached: set<Path>)
    requires Added(declared, reached) != []
    ensures reached < reached + FilesOf(Added(declared, reached))
  {
    var init, last := declared[..|declared| - 1], declared[|declared| - 1];
    var before := Added(init, reached);
    if before == [] {
      FilesOneMore([], last);
      assert [] + [last] == [last];
      assert last.file in FilesOf(Added(declared, reached));
    } else {
      AddedIsNew(init, reached);
      FilesOneMore(before, last);
    }
  }

  /** Breadth-first from the roots: each file is entered once, by the first declaration that names it. */
  method Walk(roots: seq<Pending>, children: Children, seeded: set<Path>, ghost universe: set<Path>)
    returns (reached: set<Path>, ghost visited: seq<Pending>)
    requires seeded == FilesOf(roots) && Covers(universe, children) && seeded <= universe
    ensures Underway(roots, children, universe, visited, [], reached)
  {
    var queue := roots;
    reached, visited := seeded, [];
    assert [] + roots == roots;
    while queue != []
      invariant Underway(roots, children, universe, visited, queue, reached)
      decreases |universe - reached|, |queue|
    {
      var p := queue[0];
      StepKeepsUnderway(roots, children, universe, visited, queue, reached);
      AddedShrinksTheRest(children(p), reached, universe);
      visited := visited + [p];
      queue, reached := Expand(children(p), queue[1..], reached);
    }
  }

  /** The visit list of the walk: it has been expanded to its end, and the files are its. */
  ghost predicate IsWalk(roots: seq<Pending>, children: Children, visited: seq<Pending>, reached: set<Path>) {
    visited == Grown(roots, children, |visited|) && reached == FilesOf(visited)
  }

  lemma {:induction false} GrownStays(roots: seq<Pending>, children: Children, n: nat, m: nat)
    requires |Grown(roots, children, n)| == n && n <= m
    ensures Grown(roots, children, m) == Grown(roots, children, n)
    decreases m
  {
    if n < m { GrownStays(roots, children, n, m - 1); }
  }

  /** There is only one. */
  lemma WalkIsUnique(roots: seq<Pending>, children: Children, visited: seq<Pending>, reached: set<Path>,
      visited': seq<Pending>, reached': set<Path>)
    requires IsWalk(roots, children, visited, reached) && IsWalk(roots, children, visited', reached')
    ensures visited == visited' && reached == reached'
  {
    if |visited| <= |visited'| {
      GrownStays(roots, children, |visited|, |visited'|);
    } else {
      GrownStays(roots, children, |visited'|, |visited|);
    }
  }

  lemma {:induction false} GrownAreReachable(roots: seq<Pending>, children: Children, n: nat)
    ensures forall p :: p in Grown(roots, children, n) ==> Reachable(roots, children, p)
  {
    if n == 0 {
      forall p | p in roots ensures Reachable(roots, children, p) { RootIsReachable(roots, children, p); }
    } else {
      GrownAreReachable(roots, children, n - 1);
      var before := Grown(roots, children, n - 1);
      if n <= |before| {
        var p := before[n - 1];
        AddedAreDeclared(children(p), FilesOf(before));
        forall c | c in Added(children(p), FilesOf(before)) ensures Reachable(roots, children, c) {
          ChildIsReachable(roots, children, p, c);
        }
      }
    }
  }

  /** The first `n` of the list have had their declarations reached. */
  lemma {:induction false} GrownIsExpanded(roots: seq<Pending>, children: Children, n: nat)
    requires n <= |Grown(roots, children, n)|
    ensures var s := Grown(roots, children, n); Expanded(children, s[..n], FilesOf(s)) && FilesOf(roots) <= FilesOf(s)
  {
    if n > 0 {
      var before := Grown(roots, children, n - 1);
      if n <= |before| {
        GrownIsExpanded(roots, children, n - 1);
        var p, added := before[n - 1], Added(children(before[n - 1]), FilesOf(before));
        AddedAreDeclared(children(p), FilesOf(before));
        FilesAppend(before, added);
        ExpandedOneMore(children, before[..n - 1], p, FilesOf(before), FilesOf(before + added));
        assert (before + added)[..n] == before[..n - 1] + [p];
      }
    }
  }

  /** All visited by chains, the roots among them, and closed under declarations. */
  lemma WalkIsClosed(roots: seq<Pending>, children: Children, visited: seq<Pending>, reached: set<Path>)
    requires IsWalk(roots, children, visited, reached)
    ensures forall p :: p in visited ==> Reachable(roots, children, p)
    ensures Expanded(children, visited, reached) && FilesOf(roots) <= reached
  {
    GrownAreReachable(roots, children, |visited|);
    GrownIsExpanded(roots, children, |visited|);
    assert visited[..|visited|] == visited;
  }

  /** The walk from the roots, and what it reaches. */
  method WalkFrom(roots: seq<Pending>, children: Children, seeded: set<Path>, ghost universe: set<Path>)
    returns (reached: set<Path>, ghost visited: seq<Pending>)
    requires seeded == FilesOf(roots) && Covers(universe, children) && seeded <= universe
    ensures IsWalk(roots, children, visited, reached)
    ensures forall file :: file in reached ==> FileIsReachable(roots, children, file)
    ensures SingleDirectories(roots, children) ==> forall file :: FileIsReachable(roots, children, file) ==>
      file in reached
  {
    reached, visited := Walk(roots, children, seeded, universe);
    assert visited + [] == visited;
    forall file | file in reached
      ensures FileIsReachable(roots, children, file) { WalkIsSound(roots, children, visited, reached, file); }
    if SingleDirectories(roots, children) {
      forall file | FileIsReachable(roots, children, file)
        ensures file in reached { WalkIsComplete(roots, children, visited, reached, file); }
    }
  }

  // ---------------------------------------------------------------------------------------------
  // What the walk reaches
  // ---------------------------------------------------------------------------------------------

  /** Whatever it reaches has a chain of declarations from a root. */
  lemma WalkIsSound(roots: seq<Pending>, children: Children, visited: seq<Pending>, reached: set<Path>, file: Path)
    requires IsWalk(roots, children, visited, reached) && file in reached
    ensures FileIsReachable(roots, children, file)
  {
    WalkIsClosed(roots, children, visited, reached);
    var p := FileOf(visited, file);
    assert p == Pending(file, p.childrenDir);
  }

  /** A declaration the walk passed over: its file had been met in another directory. */
  ghost predicate Shadowed(roots: seq<Pending>, children: Children, visited: seq<Pending>, p: Pending) {
    Reachable(roots, children, p) && p !in visited
  }

  /** Everything that shadowed files declare was reached anyway. */
  ghost predicate ShadowsAddNothing(roots: seq<Pending>, children: Children, visited: seq<Pending>,
      reached: set<Path>) {
    forall p, c :: Shadowed(roots, children, visited, p) && c in children(p) ==> c.file in reached
  }

  ghost predicate ReachesAll(roots: seq<Pending>, children: Children, reached: set<Path>) {
    forall file :: FileIsReachable(roots, children, file) ==> file in reached
  }

  lemma ShorterChain(roots: seq<Pending>, children: Children, chain: seq<Pending>)
    requires IsChain(roots, children, chain) && |chain| > 1
    ensures var n := |chain| - 1; IsChain(roots, children, chain[..n]) && chain[n] in children(chain[..n][n - 1])
  {
    var init := chain[..|chain| - 1];
    forall i, j | 0 <= i && j == i + 1 && j < |init|
      ensures init[j] in children(init[i]) { assert chain[j] in children(chain[i]); }
    assert chain[|init|] in children(chain[|init| - 1]);
  }

  lemma {:induction false} ChainIsReached(roots: seq<Pending>, children: Children, visited: seq<Pending>,
      reached: set<Path>, chain: seq<Pending>)
    requires IsWalk(roots, children, visited, reached) && ShadowsAddNothing(roots, children, visited, reached) &&
      IsChain(roots, children, chain)
    ensures chain[|chain| - 1].file in reached
    decreases |chain|
  {
    var n := |chain| - 1;
    WalkIsClosed(roots, children, visited, reached);
    if n == 0 {
      FileIn(roots, chain[0]);
    } else {
      ShorterChain(roots, children, chain);
      var p := chain[..n][n - 1];
      assert Reachable(roots, children, p);
      if p in visited { assert chain[n].file in reached; } else { assert Shadowed(roots, children, visited, p); }
    }
  }

  /**
   The walk reaches every file that a chain of declarations reaches, if and only if the declarations
   it passed over, because it had met their file in another directory, lead to no other file.
   */
  lemma WalkIsCompleteIff(roots: seq<Pending>, children: Children, visited: seq<Pending>, reached: set<Path>)
    requires IsWalk(roots, children, visited, reached)
    ensures ReachesAll(roots, children, reached) <==> ShadowsAddNothing(roots, children, visited, reached)
  {
    if ShadowsAddNothing(roots, children, visited, reached) {
      forall file | FileIsReachable(roots, children, file) ensures file in reached {
        var dir :| Reachable(roots, children, Pending(file, dir));
        var chain :| IsChain(roots, children, chain) && chain[|chain| - 1] == Pending(file, dir);
        ChainIsReached(roots, children, visited, reached, chain);
      }
    }
    if ReachesAll(roots, children, reached) {
      forall p, c | Shadowed(roots, children, visited, p) && c in children(p) ensures c.file in reached {
        ChildIsReachable(roots, children, p, c);
        assert c == Pending(c.file, c.childrenDir);
        assert FileIsReachable(roots, children, c.file);
      }
    }
  }

  /** A file that was reached casts no shadow when files have one directory. */
  lemma ReachedIsVisited(roots: seq<Pending>, children: Children, visited: seq<Pending>, reached: set<Path>, p: Pending)
    requires IsWalk(roots, children, visited, reached) && SingleDirectories(roots, children)
    requires Reachable(roots, children, p) && p.file in reached
    ensures p in visited
  {
    WalkIsClosed(roots, children, visited, reached);
    var q := FileOf(visited, p.file);
    assert q == Pending(p.file, q.childrenDir) && p == Pending(p.file, p.childrenDir);
  }

  lemma {:induction false} ChainIsVisited(roots: seq<Pending>, children: Children, visited: seq<Pending>,
      reached: set<Path>, chain: seq<Pending>)
    requires IsWalk(roots, children, visited, reached) && SingleDirectories(roots, children) &&
      IsChain(roots, children, chain)
    ensures chain[|chain| - 1] in visited
    decreases |chain|
  {
    var n := |chain| - 1;
    WalkIsClosed(roots, children, visited, reached);
    if n > 0 {
      ShorterChain(roots, children, chain);
      ChainIsVisited(roots, children, visited, reached, chain[..n]);
    } else {
      FileIn(roots, chain[0]);
    }
    assert chain[n].file in reached;
    assert Reachable(roots, children, chain[n]);
    ReachedIsVisited(roots, children, visited, reached, chain[n]);
  }

  /** With one directory per file, the walk reaches exactly the files that chains of declarations reach. */
  lemma WalkIsComplete(roots: seq<Pending>, children: Children, visited: seq<Pending>, reached: set<Path>, file: Path)
    requires IsWalk(roots, children, visited, reached) && SingleDirectories(roots, children)
    ensures file in reached <==> FileIsReachable(roots, children, file)
  {
    if file in reached { WalkIsSound(roots, children, visited, reached, file); }
    if FileIsReachable(roots, children, file) {
      var dir :| Reachable(roots, children, Pending(file, dir));
      var chain :| IsChain(roots, children, chain) && chain[|chain| - 1] == Pending(file, dir);
      ChainIsVisited(roots, children, visited, reached, chain);
      FileIn(visited, Pending(file, dir));
    }
  }

  // ---------------------------------------------------------------------------------------------
  // The condition as the walk can test it
  // ---------------------------------------------------------------------------------------------

  /** The walk comes across `c`: it visits it, or a visited file declares it. */
  ghost predicate Meets(children: Children, visited: seq<Pending>, c: Pending) {
    c in visited || exists p :: p in visited && c in children(p)
  }

  /** No declaration that the walk comes across names a visited file with another directory. */
  ghost predicate MeetsOneDirectory(children: Children, visited: seq<Pending>) {
    forall c, p :: Meets(children, visited, c) && p in visited && c.file == p.file ==> c == p
  }

  lemma {:induction false} RootsAreVisited(roots: seq<Pending>, children: Children, n: nat)
    ensures forall p :: p in roots ==> p in Grown(roots, children, n)
  {
    if n > 0 { RootsAreVisited(roots, children, n - 1); }
  }

  lemma {:induction false} ChainIsMet(roots: seq<Pending>, children: Children, visited: seq<Pending>,
      reached: set<Path>, chain: seq<Pending>)
    requires IsWalk(roots, children, visited, reached) && MeetsOneDirectory(children, visited)
    requires IsChain(roots, children, chain)
    ensures chain[|chain| - 1] in visited
    decreases |chain|
  {
    var n := |chain| - 1;
    if n == 0 {
      RootsAreVisited(roots, children, |visited|);
    } else {
      ShorterChain(roots, children, chain);
      ChainIsMet(roots, children, visited, reached, chain[..n]);
      WalkIsClosed(roots, children, visited, reached);
      var p := FileOf(visited, chain[n].file);
      assert Meets(children, visited, chain[n]);
    }
  }

  lemma MetIsReachable(roots: seq<Pending>, children: Children, visited: seq<Pending>, reached: set<Path>, c: Pending)
    requires IsWalk(roots, children, visited, reached) && Meets(children, visited, c)
    ensures Reachable(roots, children, c)
  {
    WalkIsClosed(roots, children, visited, reached);
    if c !in visited {
      var p :| p in visited && c in children(p);
      ChildIsReachable(roots, children, p, c);
    }
  }

  /**
   Each file has one directory, so that the walk reaches them all, if and only if the walk comes
   across no declaration of a visited file with another directory.
   */
  lemma SingleDirectoriesIff(roots: seq<Pending>, children: Children, visited: seq<Pending>, reached: set<Path>)
    requires IsWalk(roots, children, visited, reached)
    ensures SingleDirectories(roots, children) <==> MeetsOneDirectory(children, visited)
    ensures MeetsOneDirectory(children, visited) ==> ReachesAll(roots, children, reached)
  {
    if SingleDirectories(roots, children) {
      forall c, p | Meets(children, visited, c) && p in visited && c.file == p.file ensures c == p {
        MetIsReachable(roots, children, visited, reached, c);
        MetIsReachable(roots, children, visited, reached, p);
        assert c == Pending(c.file, c.childrenDir) && p == Pending(c.file, p.childrenDir);
      }
    }
    if MeetsOneDirectory(children, visited) {
      forall p | Reachable(roots, children, p) ensures p in visited {
        var chain :| IsChain(roots, children, chain) && chain[|chain| - 1] == p;
        ChainIsMet(roots, children, visited, reached, chain);
      }
      forall p | p in visited ensures Meets(children, visited, p) {
      }
      forall file | FileIsReachable(roots, children, file) ensures file in reached {
        var dir :| Reachable(roots, children, Pending(file, dir));
        FileIn(visited, Pending(file, dir));
      }
    }
  }

}
