/** Project discovery: the depth-limited scan for manifests and the signals it yields. */
module ManifestScan {
  import opened Basics
  import Sorting

  const MAX_DEPTH := 3
  const EXCLUDED: set<string> := {".git", "node_modules", "target", ".harkonnen", ".claude", ".svelte-kit", "dist"}

  /** A path below the project root, one name per step; the root itself is []. */
  type Path = seq<string>

  /** A directory tree; entries stand in the order the file system lists them. */
  datatype Tree = File | Dir(entries: seq<Entry>)
  datatype Entry = Entry(name: string, node: Tree)

  datatype Kind = Rust | Node | Python | Go | Compose

  datatype Signal = Signal(kind: Kind, dir: Path)

  function KindOf(name: string): Option<Kind> {
    if name == "Cargo.toml" then Some(Rust)
    else if name == "package.json" then Some(Node)
    else if name == "pyproject.toml" then Some(Python)
    else if name == "go.mod" then Some(Go)
    else if name == "docker-compose.yml" || name == "compose.yml" then Some(Compose)
    else None
  }

  ghost predicate DistinctNames(node: Tree) {
    node.Dir? ==>
      && (forall i, j :: 0 <= i < j < |node.entries| ==> node.entries[i].name != node.entries[j].name)
      && (forall e <- node.entries :: DistinctNames(e.node))
  }

  function Child(entries: seq<Entry>, name: string): Option<Tree> {
    if entries == [] then None
    else if entries[0].name == name then Some(entries[0].node)
    else Child(entries[1..], name)
  }

  function Lookup(node: Tree, p: Path): Option<Tree>
    decreases |p|
  {
    if p == [] then Some(node)
    else if node.File? then None
    else
      match Child(node.entries, p[0])
      case None => None
      case Some(child) => Lookup(child, p[1..])
  }

  /** `Path::exists`: a file or a directory. */
  predicate Exists(tree: Tree, p: Path) { Lookup(tree, p).Some? }

  predicate IsFile(tree: Tree, p: Path) { Lookup(tree, p) == Some(File) }

  /** A manifest file at most `budget` directories below the node, none of them excluded. */
  predicate Reaches(node: Tree, p: Path, budget: int) {
    && 1 <= |p| <= budget + 1
    && IsFile(node, p) && KindOf(p[|p| - 1]).Some?
    && forall i :: 0 <= i < |p| - 1 ==> p[i] !in EXCLUDED
  }

  predicate ReachesEntry(e: Entry, rest: Path, budget: int) {
    if rest == [] then budget >= 0 && e.node.File? && KindOf(e.name).Some?
    else e.node.Dir? && e.name !in EXCLUDED && Reaches(e.node, rest, budget - 1)
  }

  lemma {:induction false} ChildIs(entries: seq<Entry>, k: nat)
    requires k < |entries|
    requires forall i, j :: 0 <= i < j < |entries| ==> entries[i].name != entries[j].name
    ensures Child(entries, entries[k].name) == Some(entries[k].node)
  {
    if k > 0 {
      assert entries[0].name != entries[k].name;
      ChildIs(entries[1..], k - 1);
    }
  }

  lemma {:induction false} ChildIsEntry(entries: seq<Entry>, name: string) returns (k: nat)
    requires Child(entries, name).Some?
    ensures k < |entries| && entries[k] == Entry(name, Child(entries, name).value)
  {
    if entries[0].name == name {
      k := 0;
    } else {
      k := ChildIsEntry(entries[1..], name);
      k := k + 1;
    }
  }

  lemma ReachesThroughEntry(node: Tree, k: nat, p: Path, budget: int)
    requires node.Dir? && DistinctNames(node) && k < |node.entries| && |p| > 0 && p[0] == node.entries[k].name
    ensures Reaches(node, p, budget) <==> ReachesEntry(node.entries[k], p[1..], budget)
  {
    var e, rest := node.entries[k], p[1..];
    ChildIs(node.entries, k);
    assert Lookup(node, p) == Lookup(e.node, rest);
    if rest != [] {
      assert rest[|rest| - 1] == p[|p| - 1];
      assert (forall i :: 0 <= i < |p| - 1 ==> p[i] !in EXCLUDED)
        <==> p[0] !in EXCLUDED && forall i :: 0 <= i < |rest| - 1 ==> rest[i] !in EXCLUDED by {
        forall i | 0 <= i < |rest| - 1 ensures rest[i] == p[i + 1] {}
        assert forall i :: 0 < i < |p| - 1 ==> p[i] == rest[i - 1];
      }
    }
  }

  // The scan

  /** p is a manifest that scanning the directory `at` would report. */
  ghost predicate Under(node: Tree, at: Path, depth: nat, p: Path) {
    at < p && Reaches(node, p[|at|..], MAX_DEPTH - depth)
  }

  ghost predicate UnderEntry(e: Entry, at: Path, depth: nat, p: Path) {
    at < p && p[|at|] == e.name && ReachesEntry(e, p[|at| + 1..], MAX_DEPTH - depth)
  }

  lemma EntryCases(e: Entry, at: Path, depth: nat, p: Path)
    requires depth <= MAX_DEPTH
    ensures UnderEntry(e, at, depth, p) <==>
            if e.node.File? then p == at + [e.name] && KindOf(e.name).Some?
            else e.name !in EXCLUDED && Under(e.node, at + [e.name], depth + 1, p)
  {
    var here := at + [e.name];
    if at < p && p[|at|] == e.name {
      assert p == here + p[|at| + 1..];
    }
  }

  method ScanEntry(e: Entry, at: Path, depth: nat, found: seq<Path>) returns (found': seq<Path>)
    requires DistinctNames(e.node) && depth <= MAX_DEPTH
    ensures Sorting.Distinct(found) ==> Sorting.Distinct(found')
    ensures forall p :: p in found' <==> p in found || UnderEntry(e, at, depth, p)
    decreases e, 0
  {
    found' := found;
    var here := at + [e.name];
    forall p {
      EntryCases(e, at, depth, p);
    }
    if e.node.Dir? {
      if e.name !in EXCLUDED {
        found' := ScanDir(e.node, here, depth + 1, found);
      }
    } else if KindOf(e.name).Some? {
      found' := PushUnique(found, here);
    }
  }

  /** scan_dir: reports exactly the manifests below the directory, each once. */
  method ScanDir(node: Tree, at: Path, depth: nat, found: seq<Path>) returns (found': seq<Path>)
    requires node.Dir? && DistinctNames(node)
    ensures Sorting.Distinct(found) ==> Sorting.Distinct(found')
    ensures forall p :: p in found' <==> p in found || Under(node, at, depth, p)
    decreases node, 1
  {
    found' := found;
    if depth > MAX_DEPTH { return; }
    var i := 0;
    while i < |node.entries|
      invariant 0 <= i <= |node.entries|
      invariant Sorting.Distinct(found) ==> Sorting.Distinct(found')
      invariant forall p :: p in found' <==>
                  p in found || exists k :: 0 <= k < i && UnderEntry(node.entries[k], at, depth, p)
    {
      found' := ScanEntry(node.entries[i], at, depth, found');
      i := i + 1;
    }
    forall p ensures p in found' <==> p in found || Under(node, at, depth, p) {
      UnderSomeEntry(node, at, depth, p);
    }
  }

  lemma UnderSomeEntry(node: Tree, at: Path, depth: nat, p: Path)
    requires node.Dir? && DistinctNames(node)
    ensures Under(node, at, depth, p) <==>
            exists k :: 0 <= k < |node.entries| && UnderEntry(node.entries[k], at, depth, p)
  {
    if at < p {
      var rest := p[|at|..];
      assert p[|at| + 1..] == rest[1..];
      if Under(node, at, depth, p) {
        var k := ChildIsEntry(node.entries, rest[0]);
        ReachesThroughEntry(node, k, rest, MAX_DEPTH - depth);
        assert UnderEntry(node.entries[k], at, depth, p);
      }
      forall k | 0 <= k < |node.entries| && UnderEntry(node.entries[k], at, depth, p)
        ensures Under(node, at, depth, p)
      {
        ReachesThroughEntry(node, k, rest, MAX_DEPTH - depth);
      }
    }
  }

  // Signals

  function Parent(p: Path): Option<Path> {
    if p == [] then None else Some(p[..|p| - 1])
  }

  /** has_ancestor_manifest asks for anything of that name in a proper ancestor, files and directories alike. */
  method HasAncestorManifest(tree: Tree, dir: Path, name: string) returns (found: bool)
    ensures found <==> exists k :: 0 <= k < |dir| && Exists(tree, dir[..k] + [name])
  {
    if dir == [] { return false; }
    var current := Parent(dir);
    while current.Some?
      invariant current.Some? ==> |current.value| < |dir| && current.value == dir[..|current.value|]
      invariant forall k :: (if current.Some? then |current.value| + 1 else 0) <= k < |dir| ==>
                  !Exists(tree, dir[..k] + [name])
      decreases if current.Some? then 1 + |current.value| else 0
    {
      if Exists(tree, current.value + [name]) { return true; }
      current := Parent(current.value);
    }
    return false;
  }

  predicate Manifest(kind: Kind, name: string) { KindOf(name) == Some(kind) }

  /** Some manifest of the kind is discovered directly in the directory. */
  ghost predicate HasManifest(tree: Tree, kind: Kind, dir: Path) {
    exists name :: Manifest(kind, name) && Reaches(tree, dir + [name], MAX_DEPTH)
  }

  ghost predicate Shadowed(tree: Tree, kind: Kind, dir: Path) {
    exists k, name :: 0 <= k < |dir| && Manifest(kind, name) && Exists(tree, dir[..k] + [name])
  }

  ghost predicate Signalled(tree: Tree, kind: Kind, dir: Path) {
    HasManifest(tree, kind, dir) && !Shadowed(tree, kind, dir)
  }

  method AncestorOfKind(tree: Tree, dir: Path, name: string) returns (shadowed: bool)
    requires KindOf(name).Some?
    ensures shadowed <==> Shadowed(tree, KindOf(name).value, dir)
  {
    if name == "docker-compose.yml" || name == "compose.yml" {
      shadowed := HasAncestorManifest(tree, dir, "docker-compose.yml");
      if !shadowed {
        shadowed := HasAncestorManifest(tree, dir, "compose.yml");
      }
      assert forall other :: Manifest(Compose, other) <==> other == "docker-compose.yml" || other == "compose.yml";
    } else {
      shadowed := HasAncestorManifest(tree, dir, name);
      assert forall other :: Manifest(KindOf(name).value, other) <==> other == name;
    }
  }

  /** The signals reported for the manifests found so far. */
  ghost predicate SignalOf(tree: Tree, found: seq<Path>, s: Signal) {
    && (exists name :: Manifest(s.kind, name) && s.dir + [name] in found)
    && !Shadowed(tree, s.kind, s.dir)
  }

  /** The loop of scan_target_project over the discovered manifests. */
  method DetectSignals(tree: Tree) returns (roots: seq<Path>, signals: seq<Signal>)
    requires tree.Dir? && DistinctNames(tree)
    ensures Sorting.Distinct(roots) && Sorting.Distinct(signals)
    ensures forall s :: s in signals <==> Signalled(tree, s.kind, s.dir)
    ensures forall r :: r in roots <==> r == [] || exists s :: s in signals && s.dir == r
  {
    var found := ScanDir(tree, [], 0, []);
    roots, signals := [[]], [];
    var i := 0;
    while i < |found|
      invariant 0 <= i <= |found|
      invariant Sorting.Distinct(roots) && Sorting.Distinct(signals)
      invariant forall s :: s in signals <==> SignalOf(tree, found[..i], s)
      invariant forall r :: r in roots <==> r == [] || exists s :: s in signals && s.dir == r
    {
      assert found[i] in found && Under(tree, [], 0, found[i]) && found[i][0..] == found[i];
      roots, signals := SignalPath(tree, found[i], found[..i], roots, signals);
      assert found[..i + 1] == found[..i] + [found[i]];
      i := i + 1;
    }
    assert found[..i] == found;
    forall s ensures SignalOf(tree, found, s) <==> Signalled(tree, s.kind, s.dir) {
      forall name ensures s.dir + [name] in found <==> Reaches(tree, s.dir + [name], MAX_DEPTH) {
        assert (s.dir + [name])[0..] == s.dir + [name];
        assert s.dir + [name] in found <==> Under(tree, [], 0, s.dir + [name]);
      }
    }
  }

  /** One discovered manifest: skipped below an ancestor's, otherwise its directory becomes a root with a signal. */
  method SignalPath(tree: Tree, rel: Path, ghost before: seq<Path>, roots: seq<Path>, signals: seq<Signal>)
      returns (roots': seq<Path>, signals': seq<Signal>)
    requires |rel| > 0 && KindOf(rel[|rel| - 1]).Some?
    requires Sorting.Distinct(roots) && Sorting.Distinct(signals)
    requires forall s :: s in signals <==> SignalOf(tree, before, s)
    requires forall r :: r in roots <==> r == [] || exists s :: s in signals && s.dir == r
    ensures Sorting.Distinct(roots') && Sorting.Distinct(signals')
    ensures forall s :: s in signals' <==> SignalOf(tree, before + [rel], s)
    ensures forall r :: r in roots' <==> r == [] || exists s :: s in signals' && s.dir == r
  {
    roots', signals' := roots, signals;
    var dir, name := rel[..|rel| - 1], rel[|rel| - 1];
    var signal := Signal(KindOf(name).value, dir);
    var shadowed := AncestorOfKind(tree, dir, name);
    assert dir + [name] == rel;
    forall s ensures SignalOf(tree, before + [rel], s) <==> SignalOf(tree, before, s) || (s == signal && !shadowed) {
      forall other | s.dir + [other] == rel ensures s.dir == dir && other == name {
        assert s.dir == (s.dir + [other])[..|rel| - 1];
      }
      if s == signal { assert Manifest(s.kind, name) && s.dir + [name] in before + [rel]; }
    }
    if !shadowed {
      roots' := PushUnique(roots, dir);
      signals' := PushUnique(signals, signal);
      assert signal in signals' && forall s :: s in signals ==> s in signals';
    }
  }
}
