/** What every step of an export, and every step of everybody else, keeps. */
module ExportSafety {
  import opened Bytes
  import opened Filesystem
  import opened ExportJournal
  import opened Wrappers
  import Paths

  /** A move this export performed: which inode, to which entry, holding which bytes. */
  datatype Move = Move(ino: Ino, dir: Ino, name: Name, data: ByteString)

  /** The file system and one export's journal row, with the history the claims speak about: the directory this export opened for staging (`ours`), the inodes it created (`mine`), and the files it moved into place (`moved`, by sequence number). */
  datatype World = World(fs: FS, row: Export, ours: Option<Ino>, mine: set<Ino>, moved: map<nat, Move>)

  // ----- The invariant -----

  /** Destinations are made of ordinary names; the staging name is not one. */
  predicate RowOk(row: Export) {
    && row.stagingName != "" && row.stagingName[0] == '.'
    && (forall k | 0 <= k < |row.files| ::
          row.files[k].destination != [] && forall n <- row.files[k].destination :: Paths.Ordinary(n))
  }

  /** The last component of a path. */
  function Base(p: Path): Name {
    if p == [] then "" else p[|p| - 1]
  }

  /** The staging directory has no name but its own. That name may lead elsewhere, or nowhere. */
  ghost predicate StagingApart(w: World, s: Ino) {
    s < w.fs.next && s != w.row.root && forall d: Ino, n: Name :: Bound(w.fs, d, n, s) ==> d == w.row.root && n == w.row.stagingName
  }

  /** The staging directory, and everything in it, was made by this export. */
  ghost predicate Own(w: World) {
    w.ours.Some? ==> w.ours.value in w.mine && forall n: Name, i: Ino :: Bound(w.fs, w.ours.value, n, i) ==> i in w.mine
  }

  predicate Staged(w: World, k: nat) {
    k < |w.row.files| && w.row.files[k].staged.Some?
  }

  /** The staged inode of file `k`. */
  function StagedIno(w: World, k: nat): Ino {
    if Staged(w, k) then w.row.files[k].staged.value else 0
  }

  /** A staged inode that was not moved has no name outside the staging directory. */
  ghost predicate StagedApart(w: World, s: Ino) {
    forall k: nat {:trigger Staged(w, k)} :: Staged(w, k) ==>
      && StagedIno(w, k) in w.mine && StagedIno(w, k) != s
      && (k !in w.moved ==> forall d: Ino, n: Name :: Bound(w.fs, d, n, StagedIno(w, k)) ==> d == s && n == SeqName(k))
  }

  /** In the staging directory a sequence name leads to the inode staged under it, holding the approved bytes. */
  ghost predicate StagedNamed(w: World, s: Ino) {
    forall k: nat, i: Ino {:trigger Bound(w.fs, s, SeqName(k), i)} :: Staged(w, k) && Bound(w.fs, s, SeqName(k), i) ==>
      i == StagedIno(w, k) && k !in w.moved
      && i in w.fs.nodes && w.fs.nodes[i].File? && w.fs.nodes[i].data == w.row.files[k].expected
  }

  ghost predicate StagedDistinct(w: World) {
    forall j: nat, k: nat :: Staged(w, j) && Staged(w, k) && StagedIno(w, j) == StagedIno(w, k) ==> j == k
  }

  /** The journal claims `created` only for a file this export moved, and moved only what it had journalled as staged. */
  ghost predicate Honest(w: World) {
    && (forall k: nat :: k in w.moved ==>
          && Staged(w, k) && w.moved[k].ino == StagedIno(w, k)
          && w.moved[k].name == Base(w.row.files[k].destination)
          && w.moved[k].data == w.row.files[k].expected)
    && (forall k: nat :: k < |w.row.files| && w.row.files[k].outcome == Created ==> k in w.moved)
  }

  ghost predicate Safe(w: World) {
    && WellFormed(w.fs) && RowOk(w.row) && w.row.root < w.fs.next
    && (forall i :: i in w.mine ==> i < w.fs.next)
    && Honest(w) && StagedDistinct(w)
    && (match w.ours
        case None => DirectoriesOnce(w.fs) && w.moved == map[] && forall k: nat :: !Staged(w, k)
        case Some(s) => StagingApart(w, s) && StagedApart(w, s) && StagedNamed(w, s))
  }

  // ----- Everybody else -----

  /** What the file system itself guarantees of any change: inode numbers are not reused, and an inode that has lost its last name gets no other. */
  ghost predicate Lawful(before: FS, after: FS) {
    && WellFormed(after) && before.next <= after.next
    && (forall i: Ino :: i in after.nodes && i < before.next ==> i in before.nodes)
    && (forall d: Ino, n: Name, i: Ino :: Bound(after, d, n, i) && i < before.next ==>
          exists e: Ino, m: Name :: Bound(before, e, m, i))
  }

  /** A file of this export that is in the staging directory `s`. */
  ghost predicate Inside(fs: FS, s: Ino, mine: set<Ino>, i: Ino) {
    i in mine && exists m: Name :: Bound(fs, s, m, i)
  }

  /** The same file with the same bytes, however many names it has. */
  predicate SameContent(before: FS, after: FS, i: Ino) {
    && i in before.nodes && i in after.nodes
    && (before.nodes[i].File? ==> after.nodes[i].File? && after.nodes[i].data == before.nodes[i].data)
  }

  /** Nothing is written inside the staging directory `s`; what is in it may be deleted. */
  ghost predicate InsideUntouched(before: FS, after: FS, s: Ino, mine: set<Ino>) {
    && (forall n: Name, i: Ino :: Bound(after, s, n, i) ==> Bound(before, s, n, i))
    && (forall n: Name, i: Ino :: Bound(after, s, n, i) && i in mine && i in before.nodes ==> SameContent(before, after, i))
  }

  /** Neither the staging directory nor a file of this export in it gets another name. */
  ghost predicate NoNewNames(before: FS, after: FS, s: Ino, mine: set<Ino>) {
    forall d: Ino, n: Name, i: Ino :: Bound(after, d, n, i) && (i == s || Inside(before, s, mine, i)) ==> Bound(before, d, n, i)
  }

  /** What others may do in one turn: anything, anywhere, before the staging directory has been opened; and from then on anything outside it, except to give it, or a file of this export in it, another name. They may delete it, and use its name for something else. */
  ghost predicate OthersMay(before: FS, after: FS, ours: Option<Ino>, mine: set<Ino>) {
    Lawful(before, after) &&
    match ours
    case None => DirectoriesOnce(after)
    case Some(s) => InsideUntouched(before, after, s, mine) && NoNewNames(before, after, s, mine)
  }

  /** Whatever others do in a turn keeps the invariant. */
  lemma OthersKeepSafe(w: World, after: FS)
    requires Safe(w) && OthersMay(w.fs, after, w.ours, w.mine)
    ensures Safe(w.(fs := after)) && (Own(w) ==> Own(w.(fs := after)))
  {
    hide Bound, SeqName, Base, DirectoriesOnce;
    var v := w.(fs := after);
    assert forall k: nat :: Staged(v, k) == Staged(w, k);
    if w.ours.Some? {
      var s := w.ours.value;
      assert StagingApart(v, s);
      forall k: nat | Staged(v, k) && k !in v.moved
        ensures forall d: Ino, n: Name :: Bound(after, d, n, StagedIno(v, k)) ==> d == s && n == SeqName(k)
      {
        assert StagedIno(v, k) == StagedIno(w, k) && Staged(w, k);
        forall d: Ino, n: Name | Bound(after, d, n, StagedIno(v, k))
          ensures d == s && n == SeqName(k)
        {
          var e: Ino, m: Name :| Bound(w.fs, e, m, StagedIno(w, k));
          assert Bound(w.fs, s, SeqName(k), StagedIno(w, k));
          assert Inside(w.fs, s, w.mine, StagedIno(w, k));
        }
      }
      assert StagedApart(v, s);
      forall k: nat, i: Ino | Staged(v, k) && Bound(after, s, SeqName(k), i)
        ensures i == StagedIno(v, k) && k !in v.moved && SameContent(w.fs, after, i)
      {
        assert Bound(w.fs, s, SeqName(k), i) && Staged(w, k);
      }
      assert StagedNamed(v, s);
    }
  }

  /** No name is added for the staging directory, or for a staged file that was not moved. */
  ghost predicate NothingMadeFindable(w: World, after: FS) {
    w.ours.Some? ==>
      && (forall d: Ino, n: Name :: Bound(after, d, n, w.ours.value) ==> Bound(w.fs, d, n, w.ours.value))
      && (forall k: nat, d: Ino, n: Name {:trigger Staged(w, k), Bound(after, d, n, StagedIno(w, k))} ::
            Staged(w, k) && k !in w.moved && Bound(after, d, n, StagedIno(w, k)) ==> Bound(w.fs, d, n, StagedIno(w, k)))
  }

  /** Where the limit is: a turn of others that writes nothing inside the staging directory keeps the invariant exactly if it makes neither that directory nor a file waiting in it findable under another name. */
  lemma HonestyLimit(w: World, after: FS)
    requires Safe(w) && w.ours.Some? && Lawful(w.fs, after) && InsideUntouched(w.fs, after, w.ours.value, w.mine)
    ensures Safe(w.(fs := after)) <==> NothingMadeFindable(w, after)
  {
    hide Bound, SeqName, Base, DirectoriesOnce;
    var v, s := w.(fs := after), w.ours.value;
    assert forall k: nat :: Staged(v, k) == Staged(w, k) && StagedIno(v, k) == StagedIno(w, k);
    if NothingMadeFindable(w, after) {
      assert StagingApart(v, s);
      assert StagedApart(v, s);
      forall k: nat, i: Ino | Staged(v, k) && Bound(after, s, SeqName(k), i)
        ensures i == StagedIno(v, k) && k !in v.moved && SameContent(w.fs, after, i)
      {
        assert Bound(w.fs, s, SeqName(k), i) && Staged(w, k);
      }
      assert StagedNamed(v, s);
    }
    if Safe(v) {
      forall d: Ino, n: Name | Bound(after, d, n, s)
        ensures Bound(w.fs, d, n, s)
      {
        var e: Ino, m: Name :| Bound(w.fs, e, m, s);
        assert StagingApart(v, s) && StagingApart(w, s);
      }
      forall k: nat, d: Ino, n: Name | Staged(w, k) && k !in w.moved && Bound(after, d, n, StagedIno(w, k))
        ensures Bound(w.fs, d, n, StagedIno(w, k))
      {
        var e: Ino, m: Name :| Bound(w.fs, e, m, StagedIno(w, k));
        assert Staged(v, k) && StagedApart(v, s) && StagedApart(w, s);
      }
    }
  }

  // ----- Create-only -----

  /** Every name outside the staging directory, and every inode this export did not make, is left as it was found; only the staging directory's own name may go. */
  ghost predicate CreateOnly(before: FS, after: FS, ours: Option<Ino>, mine: set<Ino>) {
    && (forall d: Ino, n: Name, i: Ino ::
          Bound(before, d, n, i) && Some(d) != ours && Some(i) != ours ==> Bound(after, d, n, i))
    && SameInodesBut(before, after, mine)
  }

  /** Removing a name from the staging directory is create-only exactly if it leads to something this export made. */
  lemma UnlinkLimit(fs: FS, s: Ino, n: Name, mine: set<Ino>)
    requires WellFormed(fs) && Unlink(fs, s, n).Ok?
    ensures CreateOnly(fs, Unlink(fs, s, n).value, Some(s), mine) <==> Entries(fs, s)[n] in mine
  {
    var gone, after := Entries(fs, s)[n], Unlink(fs, s, n).value;
    UnlinkNames(fs, s, n);
    assert Bound(fs, s, n, gone);
    if gone !in mine {
      assert gone in fs.nodes && !SameInode(fs, after, gone);
    }
  }

  /** Removing the directory under the staging name is create-only exactly if that is the staging directory, and this export made it. */
  lemma RmdirLimit(fs: FS, root: Ino, stagingName: Name, ours: Option<Ino>, mine: set<Ino>)
    requires WellFormed(fs) && ours != Some(root) && Rmdir(fs, root, stagingName).Ok?
    ensures CreateOnly(fs, Rmdir(fs, root, stagingName).value, ours, mine)
            <==> ours == Some(Entries(fs, root)[stagingName]) && Entries(fs, root)[stagingName] in mine
  {
    var gone, after := Entries(fs, root)[stagingName], Rmdir(fs, root, stagingName).value;
    RmdirNames(fs, root, stagingName);
    assert Bound(fs, root, stagingName, gone) && !Bound(after, root, stagingName, gone);
    assert gone in fs.nodes && gone !in after.nodes;
    if gone !in mine {
      assert !SameInode(fs, after, gone);
    }
  }

  // ----- The export's own steps -----

  /** The step unlinks something in the staging directory that this export did not make. */
  ghost predicate TakesEntry(w: World, v: World) {
    w.ours.Some? && v.ours == w.ours && v.mine == w.mine
    && exists n: Name :: n in Entries(w.fs, w.ours.value) && Unlink(w.fs, w.ours.value, n) == Ok(v.fs) && Entries(w.fs, w.ours.value)[n] !in w.mine
  }

  /** The step removes a directory under the staging name that is not the staging directory, or that this export did not make. */
  ghost predicate TakesDirectory(w: World, v: World) {
    v.ours == w.ours && v.mine == w.mine
    && w.row.stagingName in Entries(w.fs, w.row.root) && Rmdir(w.fs, w.row.root, w.row.stagingName) == Ok(v.fs)
    && !(w.ours == Some(Entries(w.fs, w.row.root)[w.row.stagingName]) && Entries(w.fs, w.row.root)[w.row.stagingName] in w.mine)
  }

  /** `v` is `w` after one step of this export on the file system. */
  ghost predicate OwnStep(w: World, v: World) {
    && WellFormed(w.fs) && w.ours != Some(w.row.root)
    && (CreateOnly(w.fs, v.fs, v.ours, v.mine) || TakesEntry(w, v) || TakesDirectory(w, v))
  }

  /** A step is create-only exactly if it takes nothing. */
  lemma StepLimit(w: World, v: World)
    requires OwnStep(w, v)
    ensures CreateOnly(w.fs, v.fs, v.ours, v.mine) <==> !TakesEntry(w, v) && !TakesDirectory(w, v)
  {
    hide CreateOnly, Unlink, Rmdir;
    if TakesEntry(w, v) {
      var n: Name :| n in Entries(w.fs, w.ours.value) && Unlink(w.fs, w.ours.value, n) == Ok(v.fs) && Entries(w.fs, w.ours.value)[n] !in w.mine;
      UnlinkLimit(w.fs, w.ours.value, n, w.mine);
    }
    if TakesDirectory(w, v) {
      RmdirLimit(w.fs, w.row.root, w.row.stagingName, w.ours, w.mine);
    }
  }

  predicate SameFile(before: FS, after: FS, i: Ino) {
    i in before.nodes && i in after.nodes && after.nodes[i] == before.nodes[i]
  }

  /** What a step has to show once the staging directory exists: no new names for the staging directory or for what waits in it, and what still waits is unchanged. */
  ghost predicate KeepsStaging(w: World, v: World, s: Ino) {
    && (forall d: Ino, n: Name :: Bound(v.fs, d, n, s) ==> Bound(w.fs, d, n, s))
    && (forall k: nat, d: Ino, n: Name {:trigger Staged(w, k), Bound(v.fs, d, n, StagedIno(w, k))} ::
          Staged(w, k) && k !in v.moved && Bound(v.fs, d, n, StagedIno(w, k))
          ==> Bound(w.fs, d, n, StagedIno(w, k)))
    && (forall k: nat, i: Ino {:trigger Bound(v.fs, s, SeqName(k), i)} :: Staged(w, k) && Bound(v.fs, s, SeqName(k), i)
          ==> Bound(w.fs, s, SeqName(k), i) && k !in v.moved && SameFile(w.fs, v.fs, i))
  }

  lemma KeptSafe(w: World, v: World, s: Ino)
    requires Safe(w) && w.ours == Some(s) == v.ours && v.row == w.row
    requires w.moved.Keys <= v.moved.Keys && w.mine <= v.mine && Honest(v)
    requires WellFormed(v.fs) && w.fs.next <= v.fs.next && forall i :: i in v.mine ==> i < v.fs.next
    requires KeepsStaging(w, v, s)
    ensures Safe(v)
  {
    hide Bound, SeqName, Base, Paths.Ordinary;
    assert forall k: nat :: Staged(v, k) == Staged(w, k) && StagedIno(v, k) == StagedIno(w, k);
    assert StagingApart(v, s);
    assert StagedApart(v, s);
    forall k: nat, i: Ino | Staged(v, k) && Bound(v.fs, s, SeqName(k), i)
      ensures i == StagedIno(v, k) && k !in v.moved && SameFile(w.fs, v.fs, i)
    {
      assert Staged(w, k);
    }
    assert StagedNamed(v, s);
    assert StagedDistinct(v);
  }

  lemma MakeStagingSafe(w: World)
    requires Safe(w) && w.ours.None? && Mkdir(w.fs, w.row.root, w.row.stagingName).Ok?
    ensures var v := w.(fs := Mkdir(w.fs, w.row.root, w.row.stagingName).value, mine := w.mine + {w.fs.next});
            Safe(v) && OwnStep(w, v)
  {
    hide Bound, SeqName, Base, AddNode;
    var root, name := w.row.root, w.row.stagingName;
    var v := w.(fs := Mkdir(w.fs, root, name).value, mine := w.mine + {w.fs.next});
    AddNodeNames(w.fs, root, name, Dir(Device(w.fs, root), map[]));
    assert forall k: nat :: Staged(v, k) == Staged(w, k);
    assert forall i: Ino :: i < w.fs.next && IsDir(v.fs, i) ==> IsDir(w.fs, i);
    assert DirectoriesOnce(v.fs);
  }

  /** The directory opened by the staging name is used for staging from then on, whether or not it is the one that was made. */
  lemma OpenStagingSafe(w: World, s: Ino)
    requires Safe(w) && w.ours.None? && Bound(w.fs, w.row.root, w.row.stagingName, s) && IsDir(w.fs, s)
    ensures Safe(w.(ours := Some(s)))
  {
    hide SeqName, Base;
    var v := w.(ours := Some(s));
    assert forall k: nat :: Staged(v, k) == Staged(w, k);
    assert StagingApart(v, s);
  }

  /** A name that is not among the entries leads nowhere. */
  lemma NoEntry(fs: FS, d: Ino, n: Name)
    requires n !in Entries(fs, d)
    ensures forall i: Ino :: !Bound(fs, d, n, i)
  {
  }

  /** Adding a fresh inode under a name that is no sequence name. */
  lemma AddSafe(w: World, d: Ino, n: Name, node: Node)
    requires Safe(w) && w.ours.Some? && IsDir(w.fs, d) && n !in Entries(w.fs, d)
    requires node.Dir? ==> node.entries == map[]
    requires d == w.ours.value ==> forall k: nat :: Staged(w, k) ==> n != SeqName(k)
    ensures var v := w.(fs := AddNode(w.fs, d, n, node), mine := w.mine + {w.fs.next});
            Safe(v) && OwnStep(w, v) && CreateOnly(w.fs, v.fs, v.ours, v.mine) && (Own(w) ==> Own(v))
    ensures forall e: Ino, m: Name :: Bound(AddNode(w.fs, d, n, node), e, m, w.fs.next) ==> e == d && m == n
  {
    hide Bound, SeqName, Base, AddNode;
    var s, after := w.ours.value, AddNode(w.fs, d, n, node);
    var v := w.(fs := after, mine := w.mine + {w.fs.next});
    AddNodeNames(w.fs, d, n, node);
    forall k: nat, i: Ino | Staged(w, k) && Bound(after, s, SeqName(k), i)
      ensures Bound(w.fs, s, SeqName(k), i) && k !in v.moved && SameFile(w.fs, after, i)
    {
      assert Bound(w.fs, s, SeqName(k), i);
    }
    assert KeepsStaging(w, v, s);
    assert Honest(v) by {
      assert forall k: nat :: Staged(v, k) == Staged(w, k) && StagedIno(v, k) == StagedIno(w, k);
    }
    KeptSafe(w, v, s);
  }

  lemma WriteSafe(w: World, i: Ino, data: ByteString)
    requires Safe(w) && w.ours.Some? && i in w.mine && WriteFile(w.fs, i, data).Ok?
    requires forall k: nat :: Staged(w, k) ==> StagedIno(w, k) != i
    ensures var v := w.(fs := WriteFile(w.fs, i, data).value);
            Safe(v) && OwnStep(w, v) && CreateOnly(w.fs, v.fs, v.ours, v.mine) && (Own(w) ==> Own(v))
  {
    hide Bound, SeqName, Base, WriteFile;
    var v := w.(fs := WriteFile(w.fs, i, data).value);
    WriteNames(w.fs, i, data);
    assert KeepsStaging(w, v, w.ours.value);
    assert Honest(v) by {
      assert forall k: nat :: Staged(v, k) == Staged(w, k) && StagedIno(v, k) == StagedIno(w, k);
    }
    KeptSafe(w, v, w.ours.value);
  }

  lemma RenamedEntry(fs: FS, from: Ino, old_: Name, to: Ino, new_: Name)
    requires RenameNoReplace(fs, from, old_, to, new_).Ok?
    ensures Bound(fs, from, old_, Entries(fs, from)[old_]) && new_ !in Entries(fs, to)
  {
  }

  lemma ProbeMoveSafe(w: World, from: Name, to: Name)
    requires Safe(w) && w.ours.Some? && RenameNoReplace(w.fs, w.ours.value, from, w.ours.value, to).Ok?
    requires forall k: nat :: from != SeqName(k) && to != SeqName(k)
    ensures var v := w.(fs := RenameNoReplace(w.fs, w.ours.value, from, w.ours.value, to).value);
            Safe(v) && OwnStep(w, v) && CreateOnly(w.fs, v.fs, v.ours, v.mine) && (Own(w) ==> Own(v))
  {
    hide Bound, SeqName, Base, RenameNoReplace;
    var s := w.ours.value;
    var v := w.(fs := RenameNoReplace(w.fs, s, from, s, to).value);
    RenameNames(w.fs, s, from, s, to);
    RenamedEntry(w.fs, s, from, s, to);
    forall k: nat, i: Ino | Staged(w, k) && Bound(v.fs, s, SeqName(k), i)
      ensures Bound(w.fs, s, SeqName(k), i) && k !in v.moved && SameFile(w.fs, v.fs, i)
    {
      assert Bound(w.fs, s, SeqName(k), i);
      RenameFiles(w.fs, s, from, s, to, i);
    }
    assert KeepsStaging(w, v, s);
    assert Honest(v) by {
      assert forall k: nat :: Staged(v, k) == Staged(w, k) && StagedIno(v, k) == StagedIno(w, k);
    }
    KeptSafe(w, v, s);
  }

  /** Moving a staged file to its destination: from then on the export may claim it. */
  lemma MoveSafe(w: World, k: nat, d: Ino)
    requires Safe(w) && w.ours.Some? && Staged(w, k) && d != w.ours.value
    requires RenameNoReplace(w.fs, w.ours.value, SeqName(k), d, Base(w.row.files[k].destination)).Ok?
    ensures var n, data := Base(w.row.files[k].destination), w.row.files[k].expected;
            var v := w.(fs := RenameNoReplace(w.fs, w.ours.value, SeqName(k), d, n).value,
                        moved := w.moved[k := Move(StagedIno(w, k), d, n, data)]);
            Safe(v) && OwnStep(w, v) && CreateOnly(w.fs, v.fs, v.ours, v.mine) && (Own(w) ==> Own(v))
  {
    var n := Base(w.row.files[k].destination);
    assert Paths.Ordinary(n);
    hide Bound, SeqName, Base, RenameNoReplace;
    var s, i := w.ours.value, StagedIno(w, k);
    var v := w.(fs := RenameNoReplace(w.fs, s, SeqName(k), d, n).value, moved := w.moved[k := Move(i, d, n, w.row.files[k].expected)]);
    RenameNames(w.fs, s, SeqName(k), d, n);
    RenamedEntry(w.fs, s, SeqName(k), d, n);
    assert Entries(w.fs, s)[SeqName(k)] == i;
    forall j: nat, m: Ino | Staged(w, j) && Bound(v.fs, s, SeqName(j), m)
      ensures Bound(w.fs, s, SeqName(j), m) && j !in v.moved && SameFile(w.fs, v.fs, m)
    {
      assert Bound(w.fs, s, SeqName(j), m);
      RenameFiles(w.fs, s, SeqName(k), d, n, m);
    }
    assert Honest(v) by {
      assert forall j: nat :: Staged(v, j) == Staged(w, j) && StagedIno(v, j) == StagedIno(w, j);
    }
    KeptSafe(w, v, s);
  }

  /** Removing a name from the staging directory. */
  lemma UnlinkInStagingSafe(w: World, n: Name)
    requires Safe(w) && w.ours.Some? && Unlink(w.fs, w.ours.value, n).Ok?
    ensures var v := w.(fs := Unlink(w.fs, w.ours.value, n).value);
            && Safe(v) && OwnStep(w, v) && (Own(w) ==> Own(v))
            && (CreateOnly(w.fs, v.fs, v.ours, v.mine) <==> Entries(w.fs, w.ours.value)[n] in w.mine)
  {
    var s := w.ours.value;
    var gone := Entries(w.fs, s)[n];
    assert Bound(w.fs, s, n, gone) && n in Entries(w.fs, s);
    UnlinkLimit(w.fs, s, n, w.mine);
    hide Bound, SeqName, Base, Unlink;
    var v := w.(fs := Unlink(w.fs, s, n).value);
    UnlinkNames(w.fs, s, n);
    forall k: nat, i: Ino | Staged(w, k) && Bound(v.fs, s, SeqName(k), i)
      ensures Bound(w.fs, s, SeqName(k), i) && k !in v.moved && SameFile(w.fs, v.fs, i)
    {
      assert Bound(w.fs, s, SeqName(k), i) && i == StagedIno(w, k);
      assert i != gone;
      assert SameInode(w.fs, v.fs, i);
    }
    assert KeepsStaging(w, v, s);
    assert Honest(v) by {
      assert forall j: nat :: Staged(v, j) == Staged(w, j) && StagedIno(v, j) == StagedIno(w, j);
    }
    KeptSafe(w, v, s);
  }

  /** Removing the emptied directory under the staging name. */
  lemma RemoveStagingSafe(w: World)
    requires Safe(w) && w.ours.Some? && Rmdir(w.fs, w.row.root, w.row.stagingName).Ok?
    ensures var v, gone := w.(fs := Rmdir(w.fs, w.row.root, w.row.stagingName).value), Entries(w.fs, w.row.root)[w.row.stagingName];
            && Safe(v) && OwnStep(w, v) && (Own(w) ==> Own(v))
            && (CreateOnly(w.fs, v.fs, v.ours, v.mine) <==> w.ours == Some(gone) && gone in w.mine)
  {
    var s := w.ours.value;
    var gone := Entries(w.fs, w.row.root)[w.row.stagingName];
    assert Bound(w.fs, w.row.root, w.row.stagingName, gone);
    RmdirLimit(w.fs, w.row.root, w.row.stagingName, w.ours, w.mine);
    hide Bound, SeqName, Base, Rmdir, CreateOnly;
    var v := w.(fs := Rmdir(w.fs, w.row.root, w.row.stagingName).value);
    RmdirNames(w.fs, w.row.root, w.row.stagingName);
    forall k: nat, i: Ino | Staged(w, k) && Bound(v.fs, s, SeqName(k), i)
      ensures Bound(w.fs, s, SeqName(k), i) && k !in v.moved && SameFile(w.fs, v.fs, i)
    {
      assert Bound(w.fs, s, SeqName(k), i) && i == StagedIno(w, k);
      RmdirFiles(w.fs, w.row.root, w.row.stagingName, i);
    }
    assert KeepsStaging(w, v, s);
    assert Honest(v) by {
      assert forall j: nat :: Staged(v, j) == Staged(w, j) && StagedIno(v, j) == StagedIno(w, j);
    }
    KeptSafe(w, v, s);
  }

  // ----- Journal writes -----

  /** Journalling a staged file, once its inode waits in the staging directory with the approved bytes. */
  lemma JournalStagedSafe(w: World, k: nat, i: Ino)
    requires Safe(w) && w.ours.Some? && k < |w.row.files| && !Staged(w, k) && w.row.files[k].outcome == Pending
    requires i in w.mine && i != w.ours.value && forall j: nat :: Staged(w, j) ==> StagedIno(w, j) != i
    requires forall d: Ino, n: Name :: Bound(w.fs, d, n, i) ==> d == w.ours.value && n == SeqName(k)
    requires forall j: Ino :: Bound(w.fs, w.ours.value, SeqName(k), j) ==>
               j == i && i in w.fs.nodes && w.fs.nodes[i].File? && w.fs.nodes[i].data == w.row.files[k].expected
    ensures Safe(w.(row := WithStaged(w.row, k, i)))
  {
    hide Bound, SeqName, Base, Paths.Ordinary;
    var v, s := w.(row := WithStaged(w.row, k, i)), w.ours.value;
    assert |v.row.files| == |w.row.files|;
    assert Staged(v, k) && StagedIno(v, k) == i;
    forall j: nat {:trigger Staged(v, j)} | j != k
      ensures Staged(v, j) == Staged(w, j) && StagedIno(v, j) == StagedIno(w, j)
    {
      if j < |w.row.files| {
        assert v.row.files[j] == w.row.files[j];
      }
    }
    assert k !in w.moved;
    assert StagingApart(v, s);
    assert StagedApart(v, s);
    assert StagedDistinct(v);
    forall j: nat, m: Ino | Staged(v, j) && Bound(v.fs, s, SeqName(j), m)
      ensures m == StagedIno(v, j) && j !in v.moved
      ensures m in v.fs.nodes && v.fs.nodes[m].File? && v.fs.nodes[m].data == v.row.files[j].expected
    {
    }
    assert StagedNamed(v, s);
    assert Honest(v);
  }

  /** Journalling an outcome keeps the invariant exactly because `created` is journalled only for a moved file. */
  lemma JournalOutcomeSafe(w: World, k: nat, o: Outcome)
    requires Safe(w) && k < |w.row.files| && (o == Created ==> k in w.moved)
    ensures Safe(w.(row := WithOutcome(w.row, k, o)))
  {
    hide Bound, SeqName, Base, Paths.Ordinary;
    var v := w.(row := WithOutcome(w.row, k, o));
    forall j: nat {:trigger Staged(v, j)} | true
      ensures Staged(v, j) == Staged(w, j) && StagedIno(v, j) == StagedIno(w, j)
    {
      if j < |w.row.files| {
        assert v.row.files[j].staged == w.row.files[j].staged;
      }
    }
    assert forall j: nat :: j < |v.row.files| ==> v.row.files[j].expected == w.row.files[j].expected && v.row.files[j].destination == w.row.files[j].destination;
    assert Honest(v);
    assert StagedDistinct(v);
    if w.ours.Some? {
      var s := w.ours.value;
      assert StagingApart(v, s);
      assert StagedApart(v, s);
      assert StagedNamed(v, s);
    }
  }

  lemma JournalReconciledSafe(w: World, outcomes: map<nat, Outcome>, state: State)
    requires Safe(w) && forall k: nat :: k in outcomes && outcomes[k] == Created ==> k in w.moved
    ensures Safe(w.(row := WithOutcomes(w.row, outcomes, state)))
  {
    hide Bound, SeqName, Base, Paths.Ordinary;
    var v := w.(row := WithOutcomes(w.row, outcomes, state));
    forall j: nat {:trigger Staged(v, j)} | true
      ensures Staged(v, j) == Staged(w, j) && StagedIno(v, j) == StagedIno(w, j)
    {
      if j < |w.row.files| {
        assert v.row.files[j].staged == w.row.files[j].staged;
      }
    }
    assert forall j: nat :: j < |v.row.files| ==> v.row.files[j].expected == w.row.files[j].expected && v.row.files[j].destination == w.row.files[j].destination;
    assert Honest(v);
    assert StagedDistinct(v);
    if w.ours.Some? {
      var s := w.ours.value;
      assert StagingApart(v, s);
      assert StagedApart(v, s);
      assert StagedNamed(v, s);
    }
  }

  /** Journal columns other than the files do not matter to the invariant. */
  lemma JournalOtherSafe(w: World, row: Export)
    requires Safe(w) && row.files == w.row.files && row.root == w.row.root && row.stagingName == w.row.stagingName
    ensures Safe(w.(row := row))
  {
    hide Bound, SeqName, Base, Paths.Ordinary;
    var v := w.(row := row);
    assert forall j: nat {:trigger Staged(v, j)} :: Staged(v, j) == Staged(w, j) && StagedIno(v, j) == StagedIno(w, j);
    assert Honest(v);
    assert StagedDistinct(v);
    if w.ours.Some? {
      var s := w.ours.value;
      assert StagingApart(v, s);
      assert StagedApart(v, s);
      assert StagedNamed(v, s);
    }
  }

  /** An inode staged by this export and found under a destination was moved there by it. */
  lemma FoundMeansMoved(w: World, k: nat, d: Ino, n: Name)
    requires Safe(w) && Staged(w, k) && Bound(w.fs, d, n, StagedIno(w, k)) && w.ours != Some(d)
    ensures k in w.moved
  {
  }
}
