/** The report of a project scan: roots and signals, documents to read first, and commands, all in text order. */
module ProjectScan {
  import opened Basics
  import opened ManifestScan
  import opened Sorting
  import Text

  const CANDIDATE_DOCS: seq<Path> := [
    ["README.md"], ["codex.md"], ["AGENTS.md"], ["CLAUDE.md"],
    ["docs", "architecture.md"], ["docs", "workflow-blueprint.md"],
    ["docs", "requirements-alignment.md"], ["docs", "E2E-Lamdet-Test.md"], ["functional-spec", "README.md"]]

  const LAUNCH_SCRIPT: Path := ["scripts", "launch.sh"]

  /** A shell command to be run in a directory of the project. */
  datatype Command = Command(dir: Path, text: string)

  datatype Report = Report(
    roots: seq<Path>, readFirst: seq<Path>, launch: seq<Command>, validation: seq<Command>, signals: seq<Signal>)

  // Texts, which the report is sorted by

  function Rel(p: Path): string { if p == [] then "." else Text.Join(p, "/") }

  function CommandText(c: Command): string {
    if c.dir == [] then c.text else "(cd " + Rel(c.dir) + " && " + c.text + ")"
  }

  function SignalText(s: Signal): string {
    (match s.kind
     case Rust => "Rust workspace or crate at `"
     case Node => "Node/Svelte/Vite package at `"
     case Python => "Python project at `"
     case Go => "Go module at `"
     case Compose => "Docker Compose runtime at `") + Rel(s.dir) + "`"
  }

  /** The order of strings. */
  predicate UpTo(a: string, b: string) {
    a == "" || (b != "" && (a[0] < b[0] || (a[0] == b[0] && UpTo(a[1..], b[1..]))))
  }

  lemma {:induction false} UpToIsTotal(a: string, b: string)
    ensures UpTo(a, b) || UpTo(b, a)
  {
    if a != "" && b != "" && a[0] == b[0] { UpToIsTotal(a[1..], b[1..]); }
  }

  lemma {:induction false} UpToIsTransitive(a: string, b: string, c: string)
    requires UpTo(a, b) && UpTo(b, c)
    ensures UpTo(a, c)
  {
    if a != "" && a[0] == b[0] == c[0] { UpToIsTransitive(a[1..], b[1..], c[1..]); }
  }

  /** The texts agree up to k, and there a is smaller. */
  predicate SmallerAt(a: string, b: string, k: nat) {
    k < |a| && k < |b| && a[..k] == b[..k] && a[k] < b[k]
  }

  lemma SmallerBehind(a: string, b: string, c: char, k: nat)
    ensures SmallerAt([c] + a, [c] + b, k + 1) <==> SmallerAt(a, b, k)
  {
    if k < |a| && k < |b| {
      assert ([c] + a)[..k + 1] == [c] + a[..k] && ([c] + b)[..k + 1] == [c] + b[..k];
      assert ([c] + a)[..k + 1][1..] == a[..k] && ([c] + b)[..k + 1][1..] == b[..k];
    }
  }

  /** A text comes up to another when it begins it, or is smaller where they first differ. */
  lemma {:induction false} UpToMeans(a: string, b: string)
    ensures UpTo(a, b) <==> a <= b || exists k :: SmallerAt(a, b, k)
  {
    if a != "" && b != "" {
      if a[0] == b[0] {
        var c, a', b' := a[0], a[1..], b[1..];
        assert a == [c] + a' && b == [c] + b';
        UpToMeans(a', b');
        assert a <= b <==> a' <= b';
        if k: nat :| SmallerAt(a', b', k) { SmallerBehind(a', b', c, k); }
        if k: nat :| SmallerAt(a, b, k) {
          assert k != 0;
          SmallerBehind(a', b', c, k - 1);
        }
      } else if a[0] < b[0] {
        assert SmallerAt(a, b, 0);
      } else {
        forall k: nat ensures !SmallerAt(a, b, k) {
          assert k > 0 && k < |a| && k < |b| ==> a[..k][0] != b[..k][0];
        }
      }
    }
  }

  /** How paths read: the names with slashes between them, and a dot for the project itself. */
  lemma RelMeans(p: Path, name: string)
    ensures Rel([]) == "." && Rel(p + [name]) == if p == [] then name else Rel(p) + "/" + name
  {
    Text.JoinSnoc(p, name, "/");
  }

  predicate PathOrder(a: Path, b: Path) { UpTo(Rel(a), Rel(b)) }

  predicate CommandOrder(a: Command, b: Command) { UpTo(CommandText(a), CommandText(b)) }

  predicate SignalOrder(a: Signal, b: Signal) { UpTo(SignalText(a), SignalText(b)) }

  lemma TextOrders()
    ensures TotalPreorder(PathOrder) && TotalPreorder(CommandOrder) && TotalPreorder(SignalOrder)
  {
    forall a, b ensures UpTo(a, b) || UpTo(b, a) { UpToIsTotal(a, b); }
    forall a, b, c | UpTo(a, b) && UpTo(b, c) ensures UpTo(a, c) { UpToIsTransitive(a, b, c); }
  }

  /** `sort` loses nothing and repeats nothing. */
  method SortUnique<T(!new)>(items: seq<T>, le: (T, T) -> bool) returns (sorted: seq<T>)
    requires TotalPreorder(le) && Distinct(items)
    ensures SortedBy(sorted, le) && Distinct(sorted) && forall x :: x in sorted <==> x in items
  {
    sorted := Sort(items, le);
    SortSorts(items, le);
    SortKeepsDistinct(items, le);
    forall x ensures x in sorted <==> x in items { SortedMembership(items, le, x); }
  }

  // Documents and commands

  ghost predicate IsDocument(tree: Tree, roots: seq<Path>, p: Path) {
    exists root, doc :: root in roots && doc in CANDIDATE_DOCS && p == root + doc && Exists(tree, p)
  }

  method FindDocuments(tree: Tree, roots: seq<Path>) returns (docs: seq<Path>)
    ensures Distinct(docs) && forall p :: p in docs <==> IsDocument(tree, roots, p)
  {
    docs := [];
    for i := 0 to |roots|
      invariant Distinct(docs)
      invariant forall p :: p in docs <==> IsDocument(tree, roots[..i], p)
    {
      docs := DocumentsAt(tree, roots[i], docs);
      assert roots[..i + 1] == roots[..i] + [roots[i]];
    }
    assert roots[..|roots|] == roots;
  }

  method DocumentsAt(tree: Tree, root: Path, docs: seq<Path>) returns (docs': seq<Path>)
    requires Distinct(docs)
    ensures Distinct(docs')
    ensures forall p :: p in docs' <==>
              p in docs || exists doc :: doc in CANDIDATE_DOCS && p == root + doc && Exists(tree, p)
  {
    docs' := docs;
    for j := 0 to |CANDIDATE_DOCS|
      invariant Distinct(docs')
      invariant forall p :: p in docs' <==>
                  p in docs || exists doc :: doc in CANDIDATE_DOCS[..j] && p == root + doc && Exists(tree, p)
    {
      var rel := root + CANDIDATE_DOCS[j];
      assert CANDIDATE_DOCS[..j + 1] == CANDIDATE_DOCS[..j] + [CANDIDATE_DOCS[j]];
      if Exists(tree, rel) { docs' := PushUnique(docs', rel); }
    }
    assert CANDIDATE_DOCS[..|CANDIDATE_DOCS|] == CANDIDATE_DOCS;
  }

  function ValidationOf(kind: Kind): Option<string> {
    match kind case Rust => Some("cargo test -q") case Node => Some("npm run build") case _ => None
  }

  function LaunchOf(kind: Kind): Option<string> {
    if kind.Compose? then Some("docker compose up") else None
  }

  /** The command some signal calls for. */
  ghost predicate Called(command: Kind -> Option<string>, signals: seq<Signal>, c: Command) {
    exists s :: s in signals && s.dir == c.dir && command(s.kind) == Some(c.text)
  }

  method SignalCommands(command: Kind -> Option<string>, signals: seq<Signal>) returns (commands: seq<Command>)
    ensures Distinct(commands) && forall c :: c in commands <==> Called(command, signals, c)
  {
    commands := [];
    for i := 0 to |signals|
      invariant Distinct(commands)
      invariant forall c :: c in commands <==> Called(command, signals[..i], c)
    {
      assert signals[..i + 1] == signals[..i] + [signals[i]];
      var text := command(signals[i].kind);
      if text.Some? { commands := PushUnique(commands, Command(signals[i].dir, text.value)); }
    }
    assert signals[..|signals|] == signals;
  }

  ghost predicate IsLaunchScript(tree: Tree, roots: seq<Path>, c: Command) {
    c.dir in roots && Exists(tree, c.dir + LAUNCH_SCRIPT) && c.text == "./scripts/launch.sh up"
  }

  method LaunchScripts(tree: Tree, roots: seq<Path>, commands: seq<Command>) returns (commands': seq<Command>)
    requires Distinct(commands)
    ensures Distinct(commands') && forall c :: c in commands' <==> c in commands || IsLaunchScript(tree, roots, c)
  {
    commands' := commands;
    for i := 0 to |roots|
      invariant Distinct(commands')
      invariant forall c :: c in commands' <==> c in commands || IsLaunchScript(tree, roots[..i], c)
    {
      assert roots[..i + 1] == roots[..i] + [roots[i]];
      if Exists(tree, roots[i] + LAUNCH_SCRIPT) {
        commands' := PushUnique(commands', Command(roots[i], "./scripts/launch.sh up"));
      }
    }
    assert roots[..|roots|] == roots;
  }

  // The report

  ghost predicate IsRoot(tree: Tree, r: Path) {
    r == [] || exists s: Signal :: s.dir == r && Signalled(tree, s.kind, s.dir)
  }

  /** Every list is sorted and repeats nothing. */
  ghost predicate Tidy(r: Report) {
    && (forall i, j :: 0 <= i < j < |r.roots| ==> UpTo(Rel(r.roots[i]), Rel(r.roots[j])))
    && (forall i, j :: 0 <= i < j < |r.readFirst| ==> UpTo(Rel(r.readFirst[i]), Rel(r.readFirst[j])))
    && (forall i, j :: 0 <= i < j < |r.signals| ==> UpTo(SignalText(r.signals[i]), SignalText(r.signals[j])))
    && (forall i, j :: 0 <= i < j < |r.launch| ==> UpTo(CommandText(r.launch[i]), CommandText(r.launch[j])))
    && (forall i, j :: 0 <= i < j < |r.validation| ==> UpTo(CommandText(r.validation[i]), CommandText(r.validation[j])))
    && Distinct(r.roots) && Distinct(r.readFirst) && Distinct(r.signals) && Distinct(r.launch) && Distinct(r.validation)
  }

  lemma TextsInOrder(roots: seq<Path>, docs: seq<Path>, signals: seq<Signal>, launch: seq<Command>,
                     validation: seq<Command>)
    requires SortedBy(roots, PathOrder) && SortedBy(docs, PathOrder) && SortedBy(signals, SignalOrder)
    requires SortedBy(launch, CommandOrder) && SortedBy(validation, CommandOrder)
    requires Distinct(roots) && Distinct(docs) && Distinct(signals) && Distinct(launch) && Distinct(validation)
    ensures Tidy(Report(roots, docs, launch, validation, signals))
  {
    assert forall i, j :: 0 <= i < j < |roots| ==> PathOrder(roots[i], roots[j]);
    assert forall i, j :: 0 <= i < j < |docs| ==> PathOrder(docs[i], docs[j]);
    assert forall i, j :: 0 <= i < j < |signals| ==> SignalOrder(signals[i], signals[j]);
    assert forall i, j :: 0 <= i < j < |launch| ==> CommandOrder(launch[i], launch[j]);
    assert forall i, j :: 0 <= i < j < |validation| ==> CommandOrder(validation[i], validation[j]);
  }

  /** Which commands the signals call for. */
  lemma CommandsMean(signals: seq<Signal>)
    ensures forall c :: Called(ValidationOf, signals, c) <==>
              || (Signal(Rust, c.dir) in signals && c.text == "cargo test -q")
              || (Signal(Node, c.dir) in signals && c.text == "npm run build")
    ensures forall c :: Called(LaunchOf, signals, c) <==>
              Signal(Compose, c.dir) in signals && c.text == "docker compose up"
  {
    forall c ensures Called(LaunchOf, signals, c) <==>
                       Signal(Compose, c.dir) in signals && c.text == "docker compose up" {
      if Called(LaunchOf, signals, c) {
        var s :| s in signals && s.dir == c.dir && LaunchOf(s.kind) == Some(c.text);
        assert s == Signal(Compose, c.dir);
      }
    }
    forall c ensures Called(ValidationOf, signals, c) <==>
                       || (Signal(Rust, c.dir) in signals && c.text == "cargo test -q")
                       || (Signal(Node, c.dir) in signals && c.text == "npm run build") {
      if Called(ValidationOf, signals, c) {
        var s :| s in signals && s.dir == c.dir && ValidationOf(s.kind) == Some(c.text);
        assert s == Signal(if s.kind.Rust? then Rust else Node, c.dir);
      }
    }
  }

  method ScanTargetProject(tree: Tree) returns (r: Report)
    requires tree.Dir? && DistinctNames(tree)
    ensures Tidy(r)
    ensures forall s :: s in r.signals <==> Signalled(tree, s.kind, s.dir)
    ensures forall root :: root in r.roots <==> IsRoot(tree, root)
    ensures forall p :: p in r.readFirst <==>
              exists root, doc :: root in r.roots && doc in CANDIDATE_DOCS && p == root + doc && Exists(tree, p)
    ensures forall c :: c in r.validation <==>
              || (Signal(Rust, c.dir) in r.signals && c.text == "cargo test -q")
              || (Signal(Node, c.dir) in r.signals && c.text == "npm run build")
    ensures forall c :: c in r.launch <==>
              || (Signal(Compose, c.dir) in r.signals && c.text == "docker compose up")
              || (c.dir in r.roots && Exists(tree, c.dir + ["scripts", "launch.sh"])
                  && c.text == "./scripts/launch.sh up")
  {
    TextOrders();
    var roots, signals := DetectSignals(tree);
    var docs := FindDocuments(tree, roots);
    var validation := SignalCommands(ValidationOf, signals);
    var launch := SignalCommands(LaunchOf, signals);
    launch := LaunchScripts(tree, roots, launch);
    assert forall root :: root in roots <==> IsRoot(tree, root);
    var sortedRoots := SortUnique(roots, PathOrder);
    var sortedSignals := SortUnique(signals, SignalOrder);
    var sortedDocs := SortUnique(docs, PathOrder);
    var sortedLaunch := SortUnique(launch, CommandOrder);
    var sortedValidation := SortUnique(validation, CommandOrder);
    TextsInOrder(sortedRoots, sortedDocs, sortedSignals, sortedLaunch, sortedValidation);
    CommandsMean(sortedSignals);
    r := Report(sortedRoots, sortedDocs, sortedLaunch, sortedValidation, sortedSignals);
  }
}
