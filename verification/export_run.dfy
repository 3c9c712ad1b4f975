/** A whole export into a checkout nobody changes between the preview and the installation. */
module ExportRun {
  import opened Bytes
  import opened Filesystem
  import opened ExportJournal
  import opened ExportSafety
  import opened ExportTree
  import opened ExportCourse
  import opened ExportHost
  import opened ExportManager
  import opened ExportPreview
  import opened Wrappers
  import Paths

  function RowsFor(destinations: seq<Path>, kinds: seq<Class>, expected: seq<ByteString>): seq<FileRow>
    requires |destinations| == |kinds| == |expected|
  {
    seq(|kinds|, k requires 0 <= k < |kinds| => FileRow(destinations[k], kinds[k], expected[k], None, Pending))
  }

  /** What the selected paths are to become. */
  ghost predicate Asked(manifest: map<string, ByteString>, paths: seq<string>, prefix: string, destinations: seq<Path>, expected: seq<ByteString>) {
    && |destinations| == |expected| == |paths|
    && forall k: nat :: k < |paths| ==>
         paths[k] in manifest && destinations[k] == Under(prefix, paths[k]) && expected[k] == manifest[paths[k]]
  }

  /** The destinations of a selection of canonical paths are distinct and none is on the way to another. */
  lemma SelectionIsPrefixFree(manifest: map<string, ByteString>, paths: seq<string>, prefix: string, destinations: seq<Path>, expected: seq<ByteString>, kinds: seq<Class>)
    requires Acceptable(manifest, paths, prefix)
    requires Asked(manifest, paths, prefix, destinations, expected) && |kinds| == |paths|
    ensures NoClash(RowsFor(destinations, kinds, expected))
    ensures forall k: nat :: k < |destinations| ==> destinations[k] != [] && forall n <- destinations[k] :: Paths.Ordinary(n)
  {
    hide Paths.Canonical, Under, Admissible;
    forall j: nat, k: nat | j < |paths| && k < |paths|
      ensures j != k ==> destinations[j] != destinations[k]
      ensures forall m: nat :: m < |destinations[k]| ==> destinations[j] != destinations[k][..m]
    {
      assert paths[j] in paths && paths[k] in paths;
      UnderDiffers(prefix, paths[j], paths[k]);
      assert j != k ==> paths[j] != paths[k];
    }
    forall k: nat | k < |destinations|
      ensures destinations[k] != [] && forall n <- destinations[k] :: Paths.Ordinary(n)
    {
      assert paths[k] in paths;
      UnderOrdinary(prefix, paths[k]);
    }
  }

  lemma UnderDiffers(prefix: string, p: string, q: string)
    ensures Under(prefix, p) == Under(prefix, q) ==> p == q
  {
    if Under(prefix, p) == Under(prefix, q) {
      var front := if prefix == "" then [] else Paths.Split(prefix);
      assert Under(prefix, p)[|front|..] == Paths.Split(p) && Under(prefix, q)[|front|..] == Paths.Split(q);
      Paths.SplitInjective(p, q);
    }
  }

  lemma UnderOrdinary(prefix: string, p: string)
    requires Admissible(Under(prefix, p))
    ensures Under(prefix, p) != [] && forall n <- Under(prefix, p) :: Paths.Ordinary(n)
  {
    UnderJoined(prefix, p);
  }

  /** A destination a preview does not block. */
  ghost predicate Unblocked(fs: FS, root: Ino, p: Path, expected: ByteString) {
    IsFree(fs, root, p) || IsIdentical(fs, root, p, expected)
  }

  lemma UnblockedIsPlanned(fs: FS, root: Ino, row: Export, expected: seq<ByteString>)
    requires IsDir(fs, root) && row.root == root && row.stagingName !in Entries(fs, root) && NoClash(row.files)
    requires forall k: nat :: k < |row.files| ==>
               PlannedFile(fs, root, row.approved, row.files[k].destination, row.files[k].kind, row.files[k].expected)
    ensures Planned(fs, row)
  {
    hide PlannedFile, NoClash;
  }

  /** Preview, confirmation and installation with nobody else at work. It is refused exactly when the selection is not usable or a destination is neither free nor already identical; otherwise it ends `completed`, and the tree is the old one with every free destination holding its approved bytes, the directories missing on the way to them, and nothing else. */
  method ExportUndisturbed(fs: FS, root: Ino, stagingName: Name, manifest: map<string, ByteString>, paths: seq<string>, prefix: string)
    returns (done: Option<Host>, ghost destinations: seq<Path>, ghost expected: seq<ByteString>)
    requires WellFormed(fs) && DirectoriesOnce(fs) && IsDir(fs, root) && root < fs.next && Tree(fs, root)
    requires stagingName != "" && stagingName[0] == '.' && stagingName !in Entries(fs, root)
    requires CanonicalManifest(manifest) && (prefix == "" || Paths.Canonical(prefix))
    ensures Acceptable(manifest, paths, prefix) ==> Asked(manifest, paths, prefix, destinations, expected)
    ensures done.Some? <==>
              Acceptable(manifest, paths, prefix) && forall k: nat :: k < |paths| ==> Unblocked(fs, root, destinations[k], expected[k])
    ensures done.Some? ==>
              && fresh(done.value) && done.value.row.root == root && |done.value.row.files| == |paths|
              && (forall k: nat :: k < |paths| ==>
                    && done.value.row.files[k].destination == destinations[k] && done.value.row.files[k].expected == expected[k]
                    && done.value.row.files[k].kind == if IsFree(fs, root, destinations[k]) then Create else Identical)
              && Finished(fs, done.value.fs, done.value.row.files, done.value.row)
  {
    hide Walk, IsFree, IsIdentical, PlannedFile, NoClash, Selectable, Acceptable, Asked, Destination, Tree, Under, Planned, Finished, Host.Valid, Paths.Canonical, CanonicalManifest;
    destinations, expected := [], [];
    var chosen := PlanSelection(manifest, paths, prefix);
    if chosen.Err? {
      return None, destinations, expected;
    }
    InManifest(manifest, paths, prefix);
    var targets, bytes := Targets(manifest, paths, prefix, chosen.value);
    destinations, expected := targets, bytes;
    SelectionIsPrefixFree(manifest, paths, prefix, targets, bytes, seq(|paths|, _ => Create));
    var approved, kinds := Observe(fs, root, targets, bytes);
    if Conflict in kinds {
      return None, destinations, expected;
    }
    assert forall k: nat :: k < |kinds| ==> kinds[k] in kinds;
    SelectionIsPrefixFree(manifest, paths, prefix, targets, bytes, kinds);
    var row := Export(root, stagingName, approved, RowsFor(targets, kinds, bytes), Running, None, {});
    UnblockedIsPlanned(fs, root, row, bytes);
    assert RowOk(row);
    var h := new Host(fs, Some(root), [], true, row);
    var _ := RunExport(h, bytes);
    FinishedFiles(fs, h.fs, row, h.row);
    done := Some(h);
  }

  lemma FinishedFiles(start: FS, fs: FS, before: Export, row: Export)
    requires SameApproval(before, row) && Finished(start, fs, before.files, row)
    ensures Finished(start, fs, row.files, row)
  {
    hide Walk, NeededDir;
    forall p: Path
      ensures NeededDir(start, row.root, before.files, |before.files|, p) == NeededDir(start, row.root, row.files, |row.files|, p)
    {
      SameNeeded(start, row.root, before, row, p);
      SameNeeded(start, row.root, row, before, p);
    }
    var root := row.root;
    forall p: Path, k: nat | k < |row.files| && row.files[k].kind == Create && row.files[k].destination == p
      ensures ViewAt(fs, root, p) == Contents(row.files[k].expected)
    {
      assert before.files[k].kind == Create && before.files[k].destination == p;
      assert Walk(fs, root, p) == Walk(fs, root, p);
    }
    forall p: Path | !NeededDir(start, root, row.files, |row.files|, p)
      && (forall k: nat :: k < |row.files| && row.files[k].kind == Create ==> row.files[k].destination != p)
      ensures Walk(fs, root, p) == Walk(start, root, p) && ViewAt(fs, root, p) == ViewAt(start, root, p)
    {
      assert forall k: nat :: k < |before.files| && before.files[k].kind == Create ==> before.files[k].destination == row.files[k].destination;
    }
    forall p: Path | NeededDir(start, root, row.files, |row.files|, p)
      ensures ViewAt(fs, root, p) == Directory
    {
      assert NeededDir(start, root, before.files, |before.files|, p);
      assert Walk(fs, root, p) == Walk(fs, root, p);
    }
  }

  lemma InManifest(manifest: map<string, ByteString>, paths: seq<string>, prefix: string)
    requires Acceptable(manifest, paths, prefix)
    ensures forall p <- paths :: p in manifest
  {
  }

  method Targets(manifest: map<string, ByteString>, paths: seq<string>, prefix: string, chosen: map<string, string>)
    returns (destinations: seq<Path>, expected: seq<ByteString>)
    requires chosen.Keys == (set p | p in paths) && forall p <- paths :: p in manifest && Paths.Split(chosen[p]) == Under(prefix, p)
    ensures Asked(manifest, paths, prefix, destinations, expected) && |destinations| == |expected| == |paths|
  {
    hide Under, Paths.Split;
    destinations, expected := [], [];
    while |destinations| < |paths|
      invariant |destinations| == |expected| <= |paths|
      invariant forall k: nat :: k < |destinations| ==>
                  paths[k] in manifest && destinations[k] == Under(prefix, paths[k]) && expected[k] == manifest[paths[k]]
    {
      var p := paths[|destinations|];
      assert p in paths;
      destinations := destinations + [Paths.Split(chosen[p])];
      expected := expected + [manifest[p]];
    }
  }
}
