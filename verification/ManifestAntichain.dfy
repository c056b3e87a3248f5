/**
 The signalled directories of a kind are the outermost ones, exactly when no directory that is only named like a
 manifest stands above a discovered manifest without a real manifest above it too.
 */
module ManifestAntichain {
  import opened Basics
  import opened ManifestScan

  /** A discovered manifest directory with no discovered one above it. */
  ghost predicate Minimal(tree: Tree, kind: Kind, dir: Path) {
    HasManifest(tree, kind, dir) && forall k :: 0 <= k < |dir| ==> !HasManifest(tree, kind, dir[..k])
  }

  ghost predicate FileAbove(tree: Tree, kind: Kind, dir: Path) {
    exists k, name :: 0 <= k < |dir| && Manifest(kind, name) && IsFile(tree, dir[..k] + [name])
  }

  ghost predicate DirectoryAbove(tree: Tree, kind: Kind, dir: Path) {
    exists k, name ::
      0 <= k < |dir| && Manifest(kind, name) && Exists(tree, dir[..k] + [name]) && !IsFile(tree, dir[..k] + [name])
  }

  /** A directory named like a manifest stands above a manifest only where a real manifest stands above it too. */
  ghost predicate NoDecoy(tree: Tree, kind: Kind) {
    forall dir :: HasManifest(tree, kind, dir) && DirectoryAbove(tree, kind, dir) ==> FileAbove(tree, kind, dir)
  }

  /** The file names that stand for a kind of project. */
  function NamesOf(kind: Kind): set<string> {
    match kind
    case Rust => {"Cargo.toml"}
    case Node => {"package.json"}
    case Python => {"pyproject.toml"}
    case Go => {"go.mod"}
    case Compose => {"docker-compose.yml", "compose.yml"}
  }

  lemma ManifestNames(kind: Kind, name: string)
    ensures Manifest(kind, name) <==> name in NamesOf(kind)
  {
    assert |"Cargo.toml"| == 10 && |"package.json"| == 12 && |"pyproject.toml"| == 14 && |"go.mod"| == 6;
    assert |"docker-compose.yml"| == 18 && |"compose.yml"| == 11;
  }

  /**
   Said of the tree itself: a directory is signalled when it holds a file of one of the kind's names, is at most
   three directories down with no excluded directory on the way, and nothing of such a name lies in any directory
   above it.
   */
  lemma SignalledMeans(tree: Tree, kind: Kind, dir: Path)
    ensures Signalled(tree, kind, dir) <==>
              && |dir| <= 3 && (forall i :: 0 <= i < |dir| ==> dir[i] !in EXCLUDED)
              && (exists name :: name in NamesOf(kind) && Lookup(tree, dir + [name]) == Some(File))
              && forall k, name :: 0 <= k < |dir| && name in NamesOf(kind) ==> Lookup(tree, dir[..k] + [name]).None?
  {
    forall name ensures Manifest(kind, name) <==> name in NamesOf(kind) { ManifestNames(kind, name); }
    if HasManifest(tree, kind, dir) { var _ := HasManifestExists(tree, kind, dir); }
    if |dir| <= 3 && (forall i :: 0 <= i < |dir| ==> dir[i] !in EXCLUDED) {
      forall name | name in NamesOf(kind) && Lookup(tree, dir + [name]) == Some(File)
        ensures Reaches(tree, dir + [name], MAX_DEPTH)
      {
        assert Manifest(kind, name);
      }
    }
  }

  lemma HasManifestExists(tree: Tree, kind: Kind, dir: Path) returns (name: string)
    requires HasManifest(tree, kind, dir)
    ensures Manifest(kind, name) && IsFile(tree, dir + [name])
    ensures |dir| <= MAX_DEPTH && forall i :: 0 <= i < |dir| ==> dir[i] !in EXCLUDED
  {
    name :| Manifest(kind, name) && Reaches(tree, dir + [name], MAX_DEPTH);
    forall i | 0 <= i < |dir| ensures dir[i] !in EXCLUDED {
      assert dir[i] == (dir + [name])[i];
    }
  }

  /** What has_ancestor_manifest finds as a file, the scan found as well: depth and exclusions cannot hide it. */
  lemma FileAboveIsDiscovered(tree: Tree, kind: Kind, dir: Path, k: nat, name: string)
    requires HasManifest(tree, kind, dir) && k < |dir|
    requires Manifest(kind, name) && IsFile(tree, dir[..k] + [name])
    ensures HasManifest(tree, kind, dir[..k])
  {
    var _ := HasManifestExists(tree, kind, dir);
    assert Reaches(tree, dir[..k] + [name], MAX_DEPTH);
  }

  lemma FileAboveMeans(tree: Tree, kind: Kind, dir: Path)
    requires HasManifest(tree, kind, dir)
    ensures FileAbove(tree, kind, dir) <==> !Minimal(tree, kind, dir)
  {
    if k, name :| 0 <= k < |dir| && Manifest(kind, name) && IsFile(tree, dir[..k] + [name]) {
      FileAboveIsDiscovered(tree, kind, dir, k, name);
    }
    if k :| 0 <= k < |dir| && HasManifest(tree, kind, dir[..k]) {
      var _ := HasManifestExists(tree, kind, dir[..k]);
    }
  }

  lemma ShadowedMeans(tree: Tree, kind: Kind, dir: Path)
    ensures Shadowed(tree, kind, dir) <==> FileAbove(tree, kind, dir) || DirectoryAbove(tree, kind, dir)
  {
  }

  lemma SignalledIsMinimal(tree: Tree, kind: Kind, dir: Path)
    requires Signalled(tree, kind, dir)
    ensures Minimal(tree, kind, dir)
  {
    ShadowedMeans(tree, kind, dir);
    FileAboveMeans(tree, kind, dir);
  }

  /** No signalled directory lies above another of its kind, whatever the tree holds. */
  lemma SignalledIsAntichain(tree: Tree, kind: Kind, above: Path, below: Path)
    requires Signalled(tree, kind, above) && Signalled(tree, kind, below)
    ensures !(above < below)
  {
    SignalledIsMinimal(tree, kind, below);
    assert |above| < |below| ==> below[..|above|] != above;
  }

  /** Signalled means minimal, for every directory, exactly when there is no decoy. */
  lemma SignalledExactlyMinimal(tree: Tree, kind: Kind)
    ensures (forall dir :: Signalled(tree, kind, dir) <==> Minimal(tree, kind, dir)) <==> NoDecoy(tree, kind)
  {
    forall dir | HasManifest(tree, kind, dir)
      ensures (Signalled(tree, kind, dir) <==> Minimal(tree, kind, dir))
              <==> (DirectoryAbove(tree, kind, dir) ==> FileAbove(tree, kind, dir))
    {
      ShadowedMeans(tree, kind, dir);
      FileAboveMeans(tree, kind, dir);
    }
  }

  ghost predicate Covered(tree: Tree, kind: Kind, dir: Path) {
    exists k :: 0 <= k <= |dir| && Signalled(tree, kind, dir[..k])
  }

  lemma {:induction false} MinimalBelow(tree: Tree, kind: Kind, dir: Path) returns (k: nat)
    requires HasManifest(tree, kind, dir)
    ensures k <= |dir| && Minimal(tree, kind, dir[..k])
    decreases |dir|
  {
    if Minimal(tree, kind, dir) {
      k := |dir|;
      assert dir[..k] == dir;
    } else {
      var j :| 0 <= j < |dir| && HasManifest(tree, kind, dir[..j]);
      k := MinimalBelow(tree, kind, dir[..j]);
      assert dir[..j][..k] == dir[..k];
    }
  }

  /** Every discovered manifest lies at or below a signalled directory, exactly when there is no decoy. */
  lemma CoveredExactly(tree: Tree, kind: Kind)
    ensures (forall dir :: HasManifest(tree, kind, dir) ==> Covered(tree, kind, dir)) <==> NoDecoy(tree, kind)
  {
    if NoDecoy(tree, kind) {
      SignalledExactlyMinimal(tree, kind);
      forall dir | HasManifest(tree, kind, dir) ensures Covered(tree, kind, dir) {
        var _ := MinimalBelow(tree, kind, dir);
      }
    } else {
      var dir :| HasManifest(tree, kind, dir) && DirectoryAbove(tree, kind, dir) && !FileAbove(tree, kind, dir);
      assert !Covered(tree, kind, dir) by { DecoyHides(tree, kind, dir); }
    }
  }

  /** Below a decoy and no real manifest, nothing is reported at all. */
  lemma DecoyHides(tree: Tree, kind: Kind, dir: Path)
    requires HasManifest(tree, kind, dir) && DirectoryAbove(tree, kind, dir) && !FileAbove(tree, kind, dir)
    ensures !Covered(tree, kind, dir)
  {
    FileAboveMeans(tree, kind, dir);
    ShadowedMeans(tree, kind, dir);
    assert dir[..|dir|] == dir;
  }

  /** A directory `Cargo.toml` beside a crate hides the crate. */
  lemma DecoyExample()
    ensures var tree := Dir([Entry("Cargo.toml", Dir([])), Entry("app", Dir([Entry("Cargo.toml", File)]))]);
            HasManifest(tree, Rust, ["app"]) && !Covered(tree, Rust, ["app"])
  {
    var decoy, app := Entry("Cargo.toml", Dir([])), Entry("app", Dir([Entry("Cargo.toml", File)]));
    var tree := Dir([decoy, app]);
    ChildIs(tree.entries, 0);
    ChildIs(tree.entries, 1);
    ChildIs(app.node.entries, 0);
    assert ["app"][..0] + ["Cargo.toml"] == ["Cargo.toml"] && ["app"] + ["Cargo.toml"] == ["app", "Cargo.toml"];
    assert ["app", "Cargo.toml"][1..] == ["Cargo.toml"] && ["Cargo.toml"][1..] == [];
    assert Lookup(tree, ["Cargo.toml"]) == Some(decoy.node);
    assert Lookup(app.node, ["Cargo.toml"]) == Some(File);
    assert Lookup(tree, ["app", "Cargo.toml"]) == Some(File);
    assert "app" !in EXCLUDED && Reaches(tree, ["app"] + ["Cargo.toml"], MAX_DEPTH) && Manifest(Rust, "Cargo.toml");
    assert DirectoryAbove(tree, Rust, ["app"]) by {
      assert Exists(tree, ["app"][..0] + ["Cargo.toml"]) && !IsFile(tree, ["app"][..0] + ["Cargo.toml"]);
    }
    assert !FileAbove(tree, Rust, ["app"]) by {
      forall k, name | 0 <= k < |["app"]| && Manifest(Rust, name) ensures !IsFile(tree, ["app"][..k] + [name]) {
        assert name == "Cargo.toml";
      }
    }
    DecoyHides(tree, Rust, ["app"]);
  }
}
