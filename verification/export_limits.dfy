/** Where the promises of an export end: what others would have to do, and what the export does then. */
module ExportLimits {
  import opened Filesystem
  import opened ExportJournal
  import opened ExportSafety
  import opened ExportTree
  import opened ExportManager
  import opened Wrappers

  /** A hard link. */
  function LinkFile(fs: FS, d: Ino, n: Name, i: Ino): FS
    requires IsDir(fs, d) && i in fs.nodes && fs.nodes[i].File?
  {
    var linked := Bind(fs, d, n, i);
    linked.(nodes := linked.nodes[i := fs.nodes[i].(links := fs.nodes[i].links + 1)])
  }

  lemma LinkNames(fs: FS, d: Ino, n: Name, i: Ino)
    requires IsDir(fs, d) && n !in Entries(fs, d) && i in fs.nodes && fs.nodes[i].File?
    ensures var after := LinkFile(fs, d, n, i);
            && Adds(fs, after, d, n, i) && after.nodes.Keys == fs.nodes.Keys && after.next == fs.next
            && (forall j :: j in fs.nodes && !fs.nodes[j].Dir? ==> SameContent(fs, after, j))
  {
    var after := LinkFile(fs, d, n, i);
    assert forall e: Ino :: Entries(after, e) == if e == d then Entries(fs, d)[n := i] else Entries(fs, e);
  }

  /** File `k` waits in the staging directory for its move to the free name `n` in the root. */
  ghost predicate WaitsFor(w: World, k: nat, n: Name) {
    && Safe(w) && w.ours.Some? && Staged(w, k) && k !in w.moved && Bound(w.fs, w.ours.value, SeqName(k), StagedIno(w, k))
    && w.row.files[k].destination == [n] && IsDir(w.fs, w.row.root) && n !in Entries(w.fs, w.row.root)
  }

  /** A staged file that somebody else links to its destination looks created, although this export never moved it. */
  lemma LinkedFileMisleads(w: World, k: nat, n: Name)
    requires WaitsFor(w, k, n)
    ensures StagedIno(w, k) in w.fs.nodes && w.fs.nodes[StagedIno(w, k)].File?
    ensures var after := LinkFile(w.fs, w.row.root, n, StagedIno(w, k));
            && Lawful(w.fs, after) && InsideUntouched(w.fs, after, w.ours.value, w.mine)
            && !NothingMadeFindable(w, after) && InPlace(after, w.row, k) && Established(after, w.row, k, Created)
  {
    var root, s, i := w.row.root, w.ours.value, StagedIno(w, k);
    assert w.fs.nodes[i].File?;
    var after := LinkFile(w.fs, root, n, i);
    LinkNames(w.fs, root, n, i);
    hide SeqName;
    assert Bound(after, root, n, i) && !Bound(w.fs, root, n, i);
    assert Open(after, root, n) == Ok(i) && DescendIn(after, root, [n], 0, Device(after, root)) == Ok(root);
    assert InsideUntouched(w.fs, after, s, w.mine);
  }

  /** So does one whose staging directory is renamed onto the way to its destination. */
  lemma RenamedStagingMisleads(w: World, k: nat, d: Name)
    requires Safe(w) && w.ours.Some? && Staged(w, k) && k !in w.moved && Bound(w.fs, w.ours.value, SeqName(k), StagedIno(w, k))
    requires RenameNoReplace(w.fs, w.row.root, w.row.stagingName, w.row.root, d).Ok? && Bound(w.fs, w.row.root, w.row.stagingName, w.ours.value)
    requires IsDir(w.fs, w.ours.value) && Device(w.fs, w.ours.value) == Device(w.fs, w.row.root) && ".git" !in Entries(w.fs, w.ours.value)
    requires w.row.files[k].destination == [d, SeqName(k)]
    ensures var after := RenameNoReplace(w.fs, w.row.root, w.row.stagingName, w.row.root, d).value;
            && Lawful(w.fs, after) && InsideUntouched(w.fs, after, w.ours.value, w.mine)
            && !NothingMadeFindable(w, after) && InPlace(after, w.row, k) && Established(after, w.row, k, Created)
  {
    var root, s, i := w.row.root, w.ours.value, StagedIno(w, k);
    var after := RenameNoReplace(w.fs, root, w.row.stagingName, root, d).value;
    assert d != w.row.stagingName && root != s;
    assert i in w.fs.nodes && w.fs.nodes[i].File?;
    RenameNames(w.fs, root, w.row.stagingName, root, d);
    assert Bound(after, root, d, s) && !Bound(w.fs, root, d, s);
    assert Entries(after, s) == Entries(w.fs, s) && IsDir(after, s);
    assert OpenChildIn(after, root, d, Device(after, root)) == (Ok(s), false);
    assert DescendIn(after, root, [d, SeqName(k)], 0, Device(after, root)) == DescendIn(after, s, [d, SeqName(k)], 1, Device(after, root));
    hide SeqName;
    assert Open(after, s, SeqName(k)) == Ok(i);
  }

  /** Others may put an empty directory under the staging name after the emptied staging directory was last looked at; it is removed in its place. */
  lemma SubstituteIsRemoved(w: World)
    requires Safe(w) && w.ours.Some? && Bound(w.fs, w.row.root, w.row.stagingName, w.ours.value)
    requires IsDir(w.fs, w.ours.value) && Entries(w.fs, w.ours.value) == map[] && IsDir(w.fs, w.row.root)
    ensures Rmdir(w.fs, w.row.root, w.row.stagingName).Ok?
    ensures var gone := Rmdir(w.fs, w.row.root, w.row.stagingName).value;
            && Mkdir(gone, w.row.root, w.row.stagingName).Ok?
            && var after := Mkdir(gone, w.row.root, w.row.stagingName).value;
               && OthersMay(w.fs, after, w.ours, w.mine) && Rmdir(after, w.row.root, w.row.stagingName).Ok?
               && !CreateOnly(after, Rmdir(after, w.row.root, w.row.stagingName).value, w.ours, w.mine)
  {
    var root, name, s := w.row.root, w.row.stagingName, w.ours.value;
    assert Entries(w.fs, root)[name] == s;
    var gone := Rmdir(w.fs, root, name).value;
    RmdirNames(w.fs, root, name);
    assert IsDir(gone, root) && name !in Entries(gone, root);
    var after := Mkdir(gone, root, name).value;
    AddNodeNames(gone, root, name, Dir(Device(gone, root), map[]));
    assert Bound(after, root, name, gone.next) && gone.next == w.fs.next;
    assert forall n: Name, i: Ino :: !Bound(w.fs, s, n, i);
    RmdirLimit(after, root, name, w.ours, w.mine);
  }

  /** Others may put a directory of theirs under the staging name after the export made its own, and before it opens it; what is in it is then removed. */
  lemma AdoptedIsEmptied(w: World, m: Ino, x: Ino, n: Name, f: Ino, g: Name)
    requires Safe(w) && w.ours.None? && IsDir(w.fs, w.row.root) && m != w.row.root && x != w.row.root && n != w.row.stagingName
    requires Bound(w.fs, w.row.root, w.row.stagingName, m) && IsDir(w.fs, m) && Entries(w.fs, m) == map[]
    requires Bound(w.fs, w.row.root, n, x) && IsDir(w.fs, x) && x !in w.mine && m != x
    requires Bound(w.fs, x, g, f) && f in w.fs.nodes && w.fs.nodes[f].File? && f !in w.mine
    ensures Rmdir(w.fs, w.row.root, w.row.stagingName).Ok?
    ensures var gone := Rmdir(w.fs, w.row.root, w.row.stagingName).value;
            && RenameNoReplace(gone, w.row.root, n, w.row.root, w.row.stagingName).Ok?
            && var after := RenameNoReplace(gone, w.row.root, n, w.row.root, w.row.stagingName).value;
               && OthersMay(w.fs, after, None, w.mine) && OpenDir(after, w.row.root, w.row.stagingName) == Ok(x)
               && Unlink(after, x, g).Ok? && !CreateOnly(after, Unlink(after, x, g).value, Some(x), w.mine)
  {
    var root, name := w.row.root, w.row.stagingName;
    assert Entries(w.fs, root)[name] == m;
    var gone := Rmdir(w.fs, root, name).value;
    RmdirNames(w.fs, root, name);
    RmdirFiles(w.fs, root, name, f);
    assert Bound(gone, root, n, x) && name !in Entries(gone, root) && IsDir(gone, root) && IsDir(gone, x);
    var after := RenameNoReplace(gone, root, n, root, name).value;
    RenameNames(gone, root, n, root, name);
    RenameFiles(gone, root, n, root, name, f);
    assert Entries(gone, root)[n] == x && Bound(after, root, name, x) && Bound(after, x, g, f);
    assert DirectoriesOnce(after) by {
      hide Bound;
      assert forall i: Ino :: IsDir(after, i) ==> IsDir(w.fs, i);
    }
    UnlinkLimit(after, x, g, w.mine);
  }

  /** Others may put a directory at the destination of a staged file; then a re-observation raises, and the row stays as it is. */
  lemma DirectoryGetsStuck(w: World, k: nat, n: Name)
    requires WaitsFor(w, k, n) && n != w.row.stagingName
    ensures Mkdir(w.fs, w.row.root, n).Ok?
    ensures var after := Mkdir(w.fs, w.row.root, n).value; OthersMay(w.fs, after, w.ours, w.mine) && Stuck(after, w.row, k)
  {
    var root := w.row.root;
    var after := Mkdir(w.fs, root, n).value;
    AddNodeNames(w.fs, root, n, Dir(Device(w.fs, root), map[]));
    hide SeqName;
    assert Bound(after, root, n, w.fs.next);
    assert Open(after, root, n) == Ok(w.fs.next) && DescendIn(after, root, [n], 0, Device(after, root)) == Ok(root);
    forall m: Name, i: Ino | Bound(after, w.ours.value, m, i) && i in w.mine && i in w.fs.nodes
      ensures SameContent(w.fs, after, i)
    {
    }
  }

  // ----- An installation that outlives its cancel -----

  /** A settlement that looks while an installation still runs writes its report later, when more may have been moved: it denies a moved file exactly if it reports as not installed one that has been moved by then. */
  lemma DenialLimit(row: Export, moved: map<nat, Move>, outcomes: map<nat, Outcome>, state: State)
    requires NothingDenied(row, moved)
    ensures NothingDenied(WithOutcomes(row, outcomes, state), moved) <==>
              forall k: nat :: k < |row.files| && k in outcomes && outcomes[k] == NotInstalled ==> k !in moved
  {
    var after := WithOutcomes(row, outcomes, state);
    assert forall k: nat :: k < |row.files| ==> after.files[k].outcome == if k in outcomes then outcomes[k] else row.files[k].outcome;
  }

  lemma NothingYet(w: World, k: nat, n: Name)
    requires WaitsFor(w, k, n)
    ensures Established(w.fs, w.row, k, NotInstalled)
  {
    hide SeqName, Safe, Bound;
    assert DescendIn(w.fs, w.row.root, [n], 0, Device(w.fs, w.row.root)) == Ok(w.row.root);
    assert Open(w.fs, w.row.root, n) == Err(Missing);
  }

  lemma CanMove(w: World, k: nat, n: Name)
    requires WaitsFor(w, k, n) && Device(w.fs, w.ours.value) == Device(w.fs, w.row.root)
    ensures RenameNoReplace(w.fs, w.ours.value, SeqName(k), w.row.root, n).Ok? && w.ours.value != w.row.root
  {
    hide SeqName;
  }

  /** It can: it finds nothing at the destination of a waiting file, the installation moves the file there, and then the report is written. The invariant holds throughout, since nothing is claimed that was not done. */
  lemma SettlementDeniesAMove(w: World, k: nat, n: Name, state: State)
    requires WaitsFor(w, k, n) && Device(w.fs, w.ours.value) == Device(w.fs, w.row.root)
    ensures Established(w.fs, w.row, k, NotInstalled)
    ensures RenameNoReplace(w.fs, w.ours.value, SeqName(k), w.row.root, n).Ok?
    ensures var v := w.(fs := RenameNoReplace(w.fs, w.ours.value, SeqName(k), w.row.root, n).value,
                        moved := w.moved[k := Move(StagedIno(w, k), w.row.root, n, w.row.files[k].expected)]);
            var late := v.(row := WithOutcomes(v.row, map[k := NotInstalled], state));
            Safe(v) && Safe(late) && !NothingDenied(late.row, late.moved)
  {
    NothingYet(w, k, n);
    CanMove(w, k, n);
    hide SeqName, Established, RenameNoReplace, Safe;
    MoveSafe(w, k, w.row.root);
    var v := w.(fs := RenameNoReplace(w.fs, w.ours.value, SeqName(k), w.row.root, n).value,
                moved := w.moved[k := Move(StagedIno(w, k), w.row.root, n, w.row.files[k].expected)]);
    JournalReconciledSafe(v, map[k := NotInstalled], state);
    assert WithOutcomes(v.row, map[k := NotInstalled], state).files[k].outcome == NotInstalled;
  }
}
