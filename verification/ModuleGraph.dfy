/**
 The module-reachability walk (xtask/src/unreached_module.rs): a breadth-first search from the crate
 roots over `mod` declarations. Lines are taken as already recognised; the disk is a set of files.
 */
module ModuleGraph {

  import opened Basics
  import opened Walks

  datatype Line = PathAttribute(custom: string) | ModLine(name: string) | Other

  datatype Source = Source(path: Path, lines: seq<Line>)

  /** The sources under one `src`, every file on disk, and how a `#[path]` joins to a directory. */
  datatype Tree = Tree(src: Path, all: seq<Source>, files: set<Path>, join: (Path, string) -> Path)

  datatype Declared = Declared(file: Path, name: string)

  const ROOTS := {"lib.rs", "main.rs", "mod.rs"}

  function Parent(p: Path): Path {
    if p == [] then [] else p[..|p| - 1]
  }

  // ---------------------------------------------------------------------------------------------
  // Declarations
  // ---------------------------------------------------------------------------------------------

  /** The file a declaration names: its `#[path]` against the file's directory, else `name/mod.rs`, else `name.rs`. */
  function FileFor(t: Tree, childrenDir: Path, fileDir: Path, custom: Option<string>, name: string): Path {
    if custom.Some? then t.join(fileDir, custom.value)
    else if childrenDir + [name, "mod.rs"] in t.files then childrenDir + [name, "mod.rs"]
    else childrenDir + [name + ".rs"]
  }

  /** The override in force after some lines: the last attribute, unless a declaration used it up. */
  function Override(lines: seq<Line>): Option<string> {
    if lines == [] then None
    else match lines[|lines| - 1]
      case PathAttribute(custom) => Some(custom)
      case ModLine(_) => None
      case Other => Override(lines[..|lines| - 1])
  }

  function DeclaredIn(t: Tree, childrenDir: Path, fileDir: Path, lines: seq<Line>): seq<Declared> {
    if lines == [] then []
    else
      var init, last := lines[..|lines| - 1], lines[|lines| - 1];
      var before := DeclaredIn(t, childrenDir, fileDir, init);
      if !last.ModLine? then before
      else
        var file := FileFor(t, childrenDir, fileDir, Override(init), last.name);
        if file in t.files then before + [Declared(file, last.name)] else before
  }

  method DeclaredModules(t: Tree, childrenDir: Path, fileDir: Path, lines: seq<Line>) returns (declared: seq<Declared>)
    ensures declared == DeclaredIn(t, childrenDir, fileDir, lines)
  {
    declared := [];
    var custom: Option<string> := None;
    for i := 0 to |lines|
      invariant custom == Override(lines[..i]) && declared == DeclaredIn(t, childrenDir, fileDir, lines[..i])
    {
      assert lines[..i + 1][..i] == lines[..i];
      match lines[i] {
        case PathAttribute(attribute) => custom := Some(attribute);
        case Other =>
        case ModLine(name) =>
          var file := FileFor(t, childrenDir, fileDir, custom, name);
          custom := None;
          if file in t.files { declared := declared + [Declared(file, name)]; }
      }
    }
    assert lines[..|lines|] == lines;
  }

  /** The i-th line declares `d`, and the file it names exists. */
  predicate DeclaresAt(t: Tree, childrenDir: Path, fileDir: Path, lines: seq<Line>, i: int, d: Declared) {
    && 0 <= i < |lines| && lines[i] == ModLine(d.name)
    && d.file == FileFor(t, childrenDir, fileDir, Override(lines[..i]), d.name) && d.file in t.files
  }

  /** Exactly the declarations whose files exist. */
  lemma {:induction false} DeclaredIff(t: Tree, childrenDir: Path, fileDir: Path, lines: seq<Line>, d: Declared)
    ensures d in DeclaredIn(t, childrenDir, fileDir, lines) <==>
      exists i :: DeclaresAt(t, childrenDir, fileDir, lines, i, d)
  {
    if lines != [] {
      var n := |lines| - 1;
      var init := lines[..n];
      DeclaredIff(t, childrenDir, fileDir, init, d);
      if i :| DeclaresAt(t, childrenDir, fileDir, init, i, d) {
        assert init[..i] == lines[..i];
        assert DeclaresAt(t, childrenDir, fileDir, lines, i, d);
      }
      if i :| DeclaresAt(t, childrenDir, fileDir, lines, i, d) {
        if i < n {
          assert init[..i] == lines[..i];
          assert DeclaresAt(t, childrenDir, fileDir, init, i, d);
        }
      }
      if DeclaresAt(t, childrenDir, fileDir, lines, n, d) { assert d in DeclaredIn(t, childrenDir, fileDir, lines); }
    }
  }

  // ---------------------------------------------------------------------------------------------
  // The graph
  // ---------------------------------------------------------------------------------------------

  /** Directly in `src`, not merely named like a root. */
  predicate IsRoot(t: Tree, s: Source) {
    s.path != [] && Parent(s.path) == t.src && s.path[|s.path| - 1] in ROOTS
  }

  function LinesOf(all: seq<Source>, file: Path): Option<seq<Line>> {
    if all == [] then None else if all[0].path == file then Some(all[0].lines) else LinesOf(all[1..], file)
  }

  /** What a pending file declares; a file not found under `src` is not expanded. */
  function Declarations(t: Tree, p: Pending): seq<Declared> {
    var lines := LinesOf(t.all, p.file);
    if lines.None? then [] else DeclaredIn(t, p.childrenDir, Parent(p.file), lines.value)
  }

  /** A child's own children live under its module name. */
  function ChildrenOf(p: Pending, declared: seq<Declared>): (children: seq<Pending>)
    ensures |children| == |declared|
  {
    seq(|declared|, i requires 0 <= i < |declared| => Pending(declared[i].file, p.childrenDir + [declared[i].name]))
  }

  function ChildrenIn(t: Tree): Children {
    (p: Pending) => ChildrenOf(p, Declarations(t, p))
  }

  function RootsOf(t: Tree, all: seq<Source>): seq<Pending> {
    if all == [] then []
    else
      var last := all[|all| - 1];
      RootsOf(t, all[..|all| - 1]) + (if IsRoot(t, last) then [Pending(last.path, t.src)] else [])
  }

  /** Every path the walk can meet: the sources and the files on disk. */
  ghost function Universe(t: Tree): set<Path> {
    t.files + set s | s in t.all :: s.path
  }

  lemma {:induction false} DeclaredFilesExist(t: Tree, childrenDir: Path, fileDir: Path, lines: seq<Line>, d: Declared)
    requires d in DeclaredIn(t, childrenDir, fileDir, lines)
    ensures d.file in t.files
  {
    var init := lines[..|lines| - 1];
    if d in DeclaredIn(t, childrenDir, fileDir, init) { DeclaredFilesExist(t, childrenDir, fileDir, init, d); }
  }

  lemma ChildrenExist(t: Tree, p: Pending, c: Pending)
    requires c in ChildrenIn(t)(p)
    ensures c.file in t.files
  {
    var declared := Declarations(t, p);
    var i :| 0 <= i < |declared| && ChildrenOf(p, declared)[i] == c;
    DeclaredFilesExist(t, p.childrenDir, Parent(p.file), LinesOf(t.all, p.file).value, declared[i]);
  }

  lemma {:induction false} RootsExist(t: Tree, all: seq<Source>, p: Pending)
    requires p in RootsOf(t, all)
    ensures exists s :: s in all && IsRoot(t, s) && s.path == p.file
  {
    var init, last := all[..|all| - 1], all[|all| - 1];
    if p in RootsOf(t, init) {
      RootsExist(t, init, p);
      var s :| s in init && IsRoot(t, s) && s.path == p.file;
      assert s in all;
    } else {
      assert last in all && IsRoot(t, last) && last.path == p.file;
    }
  }

  method SeedRoots(t: Tree) returns (reached: set<Path>, queue: seq<Pending>)
    ensures queue == RootsOf(t, t.all) && reached == FilesOf(queue)
  {
    reached, queue := {}, [];
    for i := 0 to |t.all|
      invariant queue == RootsOf(t, t.all[..i]) && reached == FilesOf(queue)
    {
      assert t.all[..i + 1][..i] == t.all[..i];
      if IsRoot(t, t.all[i]) {
        var p := Pending(t.all[i].path, t.src);
        FilesOneMore(queue, p);
        reached, queue := reached + {p.file}, queue + [p];
      }
    }
    assert t.all[..|t.all|] == t.all;
  }

  lemma UniverseCovers(t: Tree)
    ensures FilesOf(RootsOf(t, t.all)) <= Universe(t) && Covers(Universe(t), ChildrenIn(t))
  {
    forall file | file in FilesOf(RootsOf(t, t.all)) ensures file in Universe(t) {
      var p := FileOf(RootsOf(t, t.all), file);
      RootsExist(t, t.all, p);
      var s :| s in t.all && IsRoot(t, s) && s.path == p.file;
    }
    forall p ensures AllIn(ChildrenIn(t)(p), Universe(t)) {
      forall c | c in ChildrenIn(t)(p) ensures c.file in Universe(t) { ChildrenExist(t, p, c); }
    }
  }

  /** The files of a tree that its module graph reaches; there is no graph without sources. */
  method GraphFrom(t: Tree) returns (reached: Option<set<Path>>, ghost visited: seq<Pending>)
    ensures reached.None? <==> t.all == []
    ensures reached.Some? ==> IsWalk(RootsOf(t, t.all), ChildrenIn(t), visited, reached.value)
    ensures reached.Some? ==> forall file :: file in reached.value ==>
      FileIsReachable(RootsOf(t, t.all), ChildrenIn(t), file)
    ensures reached.Some? && SingleDirectories(RootsOf(t, t.all), ChildrenIn(t)) ==>
      forall file :: FileIsReachable(RootsOf(t, t.all), ChildrenIn(t), file) ==> file in reached.value
  {
    visited := [];
    if t.all == [] { return None, []; }
    var seeded, roots := SeedRoots(t);
    UniverseCovers(t);
    var all, walked := WalkFrom(roots, ChildrenIn(t), seeded, Universe(t));
    return Some(all), walked;
  }

  // ---------------------------------------------------------------------------------------------
  // A file declared with two directories
  // ---------------------------------------------------------------------------------------------

  const LIB: Path := ["lib.rs"]
  const X: Path := ["x.rs"]
  const C: Path := ["b", "c.rs"]

  const LIB_LINES := [PathAttribute("x.rs"), ModLine("a"), PathAttribute("x.rs"), ModLine("b")]

  /** `lib.rs` declares one file as two modules; the file declares `c`, which exists only under the second. */
  function TwoDirectories(): Tree {
    Tree([], [Source(LIB, LIB_LINES), Source(X, [ModLine("c")]), Source(C, [])], {LIB, X, C},
         (dir: Path, custom: string) => dir + [custom])
  }

  lemma LibDeclares()
    ensures var t := TwoDirectories(); ChildrenIn(t)(Pending(LIB, [])) == [Pending(X, ["a"]), Pending(X, ["b"])]
  {
    var t := TwoDirectories();
    assert LIB_LINES[..4] == LIB_LINES;
    assert LIB_LINES[..4][..3] == LIB_LINES[..3] && LIB_LINES[..3][..2] == LIB_LINES[..2];
    assert LIB_LINES[..2][..1] == LIB_LINES[..1] && LIB_LINES[..1][..0] == [];
    assert Parent(LIB) == [];
    assert t.join([], "x.rs") == X;
    assert DeclaredIn(t, [], [], LIB_LINES[..1]) == [];
    assert DeclaredIn(t, [], [], LIB_LINES[..2]) == [Declared(X, "a")];
    assert DeclaredIn(t, [], [], LIB_LINES[..3]) == [Declared(X, "a")];
    assert DeclaredIn(t, [], [], LIB_LINES) == [Declared(X, "a"), Declared(X, "b")];
    var declared := [Declared(X, "a"), Declared(X, "b")];
    assert Declarations(t, Pending(LIB, [])) == declared;
    assert [] + ["a"] == ["a"] && [] + ["b"] == ["b"];
    assert ChildrenOf(Pending(LIB, []), declared) == [Pending(X, ["a"]), Pending(X, ["b"])];
  }

  lemma XDeclares(dir: string)
    requires dir == "a" || dir == "b"
    ensures var t := TwoDirectories();
      ChildrenIn(t)(Pending(X, [dir])) == if dir == "b" then [Pending(C, ["b", "c"])] else []
  {
    var t := TwoDirectories();
    var lines := [ModLine("c")];
    assert t.all[1..] == [Source(X, lines), Source(C, [])];
    assert LinesOf(t.all, X) == Some(lines);
    assert lines[..0] == [];
    var nested, flat := [dir, "c", "mod.rs"], [dir, "c.rs"];
    assert "c" + ".rs" == "c.rs";
    assert [dir] + ["c", "mod.rs"] == nested && [dir] + ["c" + ".rs"] == flat;
    assert |nested| == 3 && nested !in t.files;
    assert flat == C <==> flat[0] == "b";
    assert "a" != "b" by { assert "a"[0] != "b"[0]; }
    assert flat in t.files <==> dir == "b" by { assert |flat| == 2 && |X| == 1; }
    assert DeclaredIn(t, [dir], [], lines) == if dir == "b" then [Declared(C, "c")] else [];
    assert ["b"] + ["c"] == ["b", "c"];
  }

  lemma OnlyLibIsRoot()
    ensures var t := TwoDirectories(); RootsOf(t, t.all) == [Pending(LIB, [])]
  {
    var t := TwoDirectories();
    var all := t.all;
    assert Parent(LIB) == [] && LIB[0] in ROOTS;
    assert IsRoot(t, all[0]);
    assert "x.rs" !in ROOTS by {
      assert "x.rs"[0] == 'x' && "lib.rs"[0] == 'l' && "main.rs"[0] == 'm' && "mod.rs"[0] == 'm';
    }
    assert !IsRoot(t, all[1]);
    assert |Parent(C)| == 1 && !IsRoot(t, all[2]);
    assert all[..3] == all && all[..3][..2] == all[..2] && all[..2][..1] == all[..1] && all[..1][..0] == [];
    var lib := Pending(LIB, []);
    assert RootsOf(t, all[..0]) == [];
    assert RootsOf(t, all[..1]) == [lib];
    assert RootsOf(t, all[..2]) == [lib];
    assert RootsOf(t, all[..3]) == [lib];
  }

  lemma GrownOnce(roots: seq<Pending>, children: Children, lib: Pending, xa: Pending, xb: Pending)
    requires roots == [lib] && children(lib) == [xa] + [xb] && xa.file == xb.file != lib.file
    ensures Grown(roots, children, 1) == [lib] + [xa]
  {
    FilesOfOne(lib);
    AddedOfTwo(xa, xb, {lib.file});
    GrownOneMore(roots, children, 0, roots);
  }

  /** The walk over these declarations: the second naming of a file is passed over. */
  lemma FirstDeclarationWins(roots: seq<Pending>, children: Children, lib: Pending, xa: Pending, xb: Pending)
    requires roots == [lib] && children(lib) == [xa] + [xb] && children(xa) == [] && xa.file == xb.file != lib.file
    ensures IsWalk(roots, children, [lib] + [xa], {lib.file, xa.file})
  {
    var visited := [lib] + [xa];
    GrownOnce(roots, children, lib, xa, xb);
    GrownOneMore(roots, children, 1, visited);
    FilesOfOne(lib);
    FilesOneMore([lib], xa);
  }

  lemma SecondIsPassedOver(roots: seq<Pending>, children: Children, visited: seq<Pending>, reached: set<Path>,
      lib: Pending, xa: Pending, xb: Pending)
    requires IsWalk(roots, children, visited, reached)
    requires roots == [lib] && children(lib) == [xa, xb] && children(xa) == [] && xa.file == xb.file != lib.file
    ensures reached == {lib.file, xa.file}
  {
    assert [xa, xb] == [xa] + [xb];
    FirstDeclarationWins(roots, children, lib, xa, xb);
    WalkIsUnique(roots, children, visited, reached, [lib] + [xa], {lib.file, xa.file});
  }

  /** On this tree the walk reaches `lib.rs` and `x.rs` and no more, although a chain of declarations reaches `c.rs`. */
  lemma SecondDirectoryIsMissed(visited: seq<Pending>, reached: set<Path>)
    requires var t := TwoDirectories(); IsWalk(RootsOf(t, t.all), ChildrenIn(t), visited, reached)
    ensures var t := TwoDirectories();
      reached == {LIB, X} && FileIsReachable(RootsOf(t, t.all), ChildrenIn(t), C) && C !in reached
  {
    var t := TwoDirectories();
    var roots, children := RootsOf(t, t.all), ChildrenIn(t);
    OnlyLibIsRoot();
    LibDeclares();
    XDeclares("a");
    XDeclares("b");
    PathsDiffer();
    SecondIsPassedOver(roots, children, visited, reached, Pending(LIB, []), Pending(X, ["a"]), Pending(X, ["b"]));
    ThirdIsReachable(roots, children, Pending(LIB, []), Pending(X, ["b"]), Pending(C, ["b", "c"]));
  }

  lemma PathsDiffer()
    ensures "a" != "b" && LIB != X && C != LIB && C != X
  {
    assert "a"[0] != "b"[0] && "lib.rs"[0] != "x.rs"[0] && |C| == 2 && |LIB| == 1 && |X| == 1;
  }

  lemma ThirdIsReachable(roots: seq<Pending>, children: Children, first: Pending, second: Pending, third: Pending)
    requires first in roots && second in children(first) && third in children(second)
    ensures FileIsReachable(roots, children, third.file)
  {
    RootIsReachable(roots, children, first);
    ChildIsReachable(roots, children, first, second);
    ChildIsReachable(roots, children, second, third);
    assert third == Pending(third.file, third.childrenDir);
  }

  /** So that is what the code returns on it. */
  method MissedByTheCode() returns (reached: Option<set<Path>>)
    ensures reached == Some({LIB, X})
  {
    ghost var visited;
    reached, visited := GraphFrom(TwoDirectories());
    SecondDirectoryIsMissed(visited, reached.value);
  }

}
