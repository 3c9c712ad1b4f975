/** An export that nobody disturbs: where it stands between its steps. */
module ExportCourse {
  import opened Bytes
  import opened Filesystem
  import opened ExportJournal
  import opened ExportSafety
  import opened ExportTree
  import opened Wrappers
  import Paths

  // ----- What an unblocked preview says -----

  predicate WasPresent(approved: map<Path, Ancestor>, q: Path) {
    q in approved && approved[q].Present?
  }

  /** A directory an export passes through: on the root's device and no nested repository. */
  predicate Passable(fs: FS, i: Ino, device: nat) {
    IsDir(fs, i) && Device(fs, i) == device && ".git" !in Entries(fs, i)
  }

  predicate PlannedAncestor(start: FS, root: Ino, approved: map<Path, Ancestor>, q: Path) {
    var w := Walk(start, root, q);
    if WasPresent(approved, q)
    then w == Some(approved[q].ino) && Passable(start, w.value, Device(start, root))
    else w.None?
  }

  predicate Holds(fs: FS, w: Option<Ino>, data: ByteString) {
    w.Some? && w.value in fs.nodes && fs.nodes[w.value].File? && fs.nodes[w.value].data == data
  }

  ghost predicate PlannedFile(start: FS, root: Ino, approved: map<Path, Ancestor>, destination: Path, kind: Class, expected: ByteString) {
    && kind != Conflict
    && (forall m: nat {:trigger destination[..m]} :: 0 < m < |destination| ==> PlannedAncestor(start, root, approved, destination[..m]))
    && (kind == Create ==> Walk(start, root, destination).None?)
    && (kind == Identical ==>
          && Holds(start, Walk(start, root, destination), expected)
          && forall m: nat {:trigger destination[..m]} :: 0 < m < |destination| ==> WasPresent(approved, destination[..m]))
  }

  /** No destination is another one, nor a directory on the way to another one. */
  ghost predicate NoClash(files: seq<FileRow>) {
    forall j: nat, k: nat {:trigger files[j], files[k]} :: j < |files| && k < |files| ==>
      && (j != k ==> files[j].destination != files[k].destination)
      && forall m: nat :: m < |files[k].destination| ==> files[j].destination != files[k].destination[..m]
  }

  /** Everything the preview found is still so in `start`, and nothing blocks the export. */
  ghost predicate Planned(start: FS, row: Export) {
    && IsDir(start, row.root) && row.stagingName !in Entries(start, row.root)
    && NoClash(row.files)
    && forall k: nat :: k < |row.files| ==>
         PlannedFile(start, row.root, row.approved, row.files[k].destination, row.files[k].kind, row.files[k].expected)
  }

  // ----- Where an export stands -----

  ghost predicate StagedAs(w: World, n: Name, i: Ino) {
    exists k: nat :: Staged(w, k) && k !in w.moved && n == SeqName(k) && i == StagedIno(w, k)
  }

  /** The staging directory is in place and holds exactly the staged files not moved yet, and `extra`. */
  ghost predicate Ready(w: World, extra: map<Name, Ino>) {
    && w.ours.Some? && IsDir(w.fs, w.ours.value) && Device(w.fs, w.ours.value) == Device(w.fs, w.row.root)
    && Bound(w.fs, w.row.root, w.row.stagingName, w.ours.value)
    && forall n: Name, i: Ino {:trigger Bound(w.fs, w.ours.value, n, i)} ::
         Bound(w.fs, w.ours.value, n, i) <==> (n in extra && extra[n] == i) || StagedAs(w, n, i)
  }

  ghost predicate Course(w: World, plan: Plan, extra: map<Name, Ino>) {
    && plan.root == w.row.root && plan.staging == w.row.stagingName
    && Laid(plan, w.fs) && IsDir(w.fs, plan.root) && Device(w.fs, plan.root) == Device(plan.start, plan.root)
    && Ready(w, extra)
  }

  lemma IsUnderway(w: World, plan: Plan, extra: map<Name, Ino>)
    requires Safe(w) && Course(w, plan, extra)
    ensures Underway(plan, w.fs, w.ours.value)
  {
  }

  /** Only what was staged, moved or put beside it matters to the names in the staging directory. */
  lemma StagedAsKept(w: World, v: World)
    requires v.row == w.row && v.moved == w.moved
    ensures forall n: Name, i: Ino :: StagedAs(v, n, i) == StagedAs(w, n, i)
  {
    assert forall k: nat :: Staged(v, k) == Staged(w, k) && StagedIno(v, k) == StagedIno(w, k);
  }

  lemma CourseStarts(w: World, v: World, plan: Plan)
    requires Safe(w) && w.ours.None? && plan.root == w.row.root && plan.staging == w.row.stagingName
    requires Laid(plan, w.fs) && IsDir(w.fs, plan.root) && Device(w.fs, plan.root) == Device(plan.start, plan.root)
    requires Mkdir(w.fs, w.row.root, w.row.stagingName).Ok?
    requires v.fs == Mkdir(w.fs, w.row.root, w.row.stagingName).value && v.row == w.row && v.moved == w.moved
    requires v.ours == Some(w.fs.next)
    ensures Course(v, plan, map[])
  {
    assert OnlyStagingName(w.fs, plan, w.fs.next);
    StagingMade(plan, w.fs);
    StagedAsKept(w, v);
    assert forall n: Name, i: Ino :: !StagedAs(w, n, i);
    assert forall n: Name, i: Ino :: !Bound(v.fs, w.fs.next, n, i);
  }

  lemma CourseCreate(w: World, v: World, plan: Plan, n: Name)
    requires Safe(w) && Course(w, plan, map[])
    requires forall k: nat :: Staged(w, k) ==> n != SeqName(k)
    requires v.row == w.row && v.moved == w.moved && v.ours == w.ours
    requires CreateFile(w.fs, w.ours.value, n).Ok? ==> v.fs == CreateFile(w.fs, w.ours.value, n).value
    ensures CreateFile(w.fs, w.ours.value, n).Ok?
    ensures Course(v, plan, map[n := w.fs.next])
    ensures w.fs.next in v.fs.nodes && v.fs.nodes[w.fs.next] == File(Device(w.fs, w.ours.value), [], 1)
    ensures OnlyStaged(v.fs, plan, w.ours.value, w.fs.next)
  {
    var s := w.ours.value;
    IsUnderway(w, plan, map[]);
    assert n !in Entries(w.fs, s) by {
      NoBound(w.fs, s, n);
    }
    StagedMade(plan, w.fs, s, n);
    StagedAsKept(w, v);
    assert v.fs.nodes[w.fs.next] == File(Device(w.fs, s), [], 1);
    hide Laid, StagedAs, CreateFile, Bound, Safe;
    assert Ready(v, map[n := w.fs.next]);
  }

  lemma CourseWrite(w: World, v: World, plan: Plan, n: Name, i: Ino, data: ByteString)
    requires Safe(w) && Course(w, plan, map[n := i]) && OnlyStaged(w.fs, plan, w.ours.value, i)
    requires i in w.fs.nodes && w.fs.nodes[i].File?
    requires v.row == w.row && v.moved == w.moved && v.ours == w.ours
    requires WriteFile(w.fs, i, data).Ok? ==> v.fs == WriteFile(w.fs, i, data).value
    ensures WriteFile(w.fs, i, data).Ok?
    ensures Course(v, plan, map[n := i])
    ensures i in v.fs.nodes && v.fs.nodes[i] == w.fs.nodes[i].(data := data)
    ensures OnlyStaged(v.fs, plan, w.ours.value, i)
  {
    var s := w.ours.value;
    IsUnderway(w, plan, map[n := i]);
    StagedWritten(plan, w.fs, s, i, data);
    StagedAsKept(w, v);
    hide Laid, StagedAs, Bound, Safe;
    assert Ready(v, map[n := i]);
  }

  lemma CourseProbe(w: World, v: World, plan: Plan, from: Name, to: Name, i: Ino)
    requires Safe(w) && Course(w, plan, map[from := i]) && from != to && OnlyStaged(w.fs, plan, w.ours.value, i)
    requires forall k: nat :: Staged(w, k) ==> from != SeqName(k) && to != SeqName(k)
    requires v.row == w.row && v.moved == w.moved && v.ours == w.ours
    requires RenameNoReplace(w.fs, w.ours.value, from, w.ours.value, to).Ok? ==>
               v.fs == RenameNoReplace(w.fs, w.ours.value, from, w.ours.value, to).value
    ensures RenameNoReplace(w.fs, w.ours.value, from, w.ours.value, to).Ok?
    ensures Course(v, plan, map[to := i]) && OnlyStaged(v.fs, plan, w.ours.value, i)
    ensures i in w.fs.nodes && w.fs.nodes[i].File? ==> i in v.fs.nodes && v.fs.nodes[i] == w.fs.nodes[i]
  {
    var s := w.ours.value;
    hide Safe, Bound, Laid, StagedAs, RenameNoReplace;
    IsUnderway(w, plan, map[from := i]);
    ProbeRenames(w, plan, from, to, i);
    ProbeMoved(plan, w.fs, s, from, to);
    StagedAsKept(w, v);
    assert SameInode(w.fs, v.fs, s) && SameInode(w.fs, v.fs, plan.root);
    assert Ready(v, map[to := i]);
  }

  lemma ProbeRenames(w: World, plan: Plan, from: Name, to: Name, i: Ino)
    requires Safe(w) && Course(w, plan, map[from := i]) && from != to
    requires forall k: nat :: Staged(w, k) ==> from != SeqName(k) && to != SeqName(k)
    ensures RenameNoReplace(w.fs, w.ours.value, from, w.ours.value, to).Ok?
    ensures var after := RenameNoReplace(w.fs, w.ours.value, from, w.ours.value, to).value;
            && (forall n: Name, j: Ino :: Bound(after, w.ours.value, n, j) <==>
                  (Bound(w.fs, w.ours.value, n, j) || (n == to && j == i)) && n != from)
            && (forall d: Ino, n: Name, j: Ino :: d != w.ours.value ==> (Bound(after, d, n, j) <==> Bound(w.fs, d, n, j)))
            && SameInodesBut(w.fs, after, {})
            && (i in w.fs.nodes && w.fs.nodes[i].File? ==> i in after.nodes && after.nodes[i] == w.fs.nodes[i])
  {
    var s := w.ours.value;
    NoBound(w.fs, s, to);
    assert Bound(w.fs, s, from, i) && Entries(w.fs, s)[from] == i;
    assert RenameNoReplace(w.fs, s, from, s, to).Ok?;
    hide Safe, Bound, Laid;
    assert WellFormed(w.fs) by { IsUnderway(w, plan, map[from := i]); }
    RenameNames(w.fs, s, from, s, to);
    if i in w.fs.nodes && w.fs.nodes[i].File? {
      RenameFiles(w.fs, s, from, s, to, i);
    }
  }

  lemma CourseUnlink(w: World, v: World, plan: Plan, n: Name, i: Ino)
    requires Safe(w) && Course(w, plan, map[n := i]) && OnlyStaged(w.fs, plan, w.ours.value, i)
    requires i in w.fs.nodes && w.fs.nodes[i].File?
    requires forall k: nat :: Staged(w, k) ==> n != SeqName(k)
    requires v.row == w.row && v.moved == w.moved && v.ours == w.ours
    requires Unlink(w.fs, w.ours.value, n).Ok? ==> v.fs == Unlink(w.fs, w.ours.value, n).value
    ensures Unlink(w.fs, w.ours.value, n).Ok?
    ensures Course(v, plan, map[])
  {
    var s := w.ours.value;
    IsUnderway(w, plan, map[n := i]);
    assert Bound(w.fs, s, n, i);
    assert Unlink(w.fs, s, n).Ok?;
    StagedUnlinked(plan, w.fs, s, n);
    StagedAsKept(w, v);
    hide Laid, Unlink, Bound, Safe;
    assert Ready(v, map[]);
  }

  /** A name the staging directory does not hold. */
  lemma NotStaged(w: World, plan: Plan, extra: map<Name, Ino>, n: Name)
    requires Course(w, plan, extra) && n !in extra && forall k: nat :: Staged(w, k) ==> n != SeqName(k)
    ensures n !in Entries(w.fs, w.ours.value)
  {
    NoBound(w.fs, w.ours.value, n);
  }

  lemma StagedOpens(w: World, plan: Plan, n: Name, i: Ino)
    requires Course(w, plan, map[n := i]) && i in w.fs.nodes && w.fs.nodes[i].File?
    ensures Open(w.fs, w.ours.value, n) == Ok(i)
  {
    assert Bound(w.fs, w.ours.value, n, i);
  }

  lemma CourseRecord(w: World, v: World, plan: Plan, k: nat, i: Ino)
    requires Safe(w) && Course(w, plan, map[SeqName(k) := i])
    requires k < |w.row.files| && !Staged(w, k) && k !in w.moved
    requires v == w.(row := WithStaged(w.row, k, i))
    ensures Course(v, plan, map[])
  {
    hide Laid, Safe, Bound, SeqName;
    assert forall j: nat :: j != k ==> Staged(v, j) == Staged(w, j) && StagedIno(v, j) == StagedIno(w, j);
    assert Staged(v, k) && StagedIno(v, k) == i;
    forall n: Name, j: Ino
      ensures StagedAs(v, n, j) <==> StagedAs(w, n, j) || (n == SeqName(k) && j == i)
    {
      if StagedAs(w, n, j) {
        var m: nat :| Staged(w, m) && m !in w.moved && n == SeqName(m) && j == StagedIno(w, m);
        assert Staged(v, m);
      }
    }
  }

  /** Journalling anything but a staged file leaves the course as it is. */
  lemma CourseJournal(w: World, v: World, plan: Plan)
    requires Course(w, plan, map[]) && v.fs == w.fs && v.ours == w.ours && v.moved == w.moved
    requires v.row.root == w.row.root && v.row.stagingName == w.row.stagingName
    requires |v.row.files| == |w.row.files| && forall k: nat :: k < |w.row.files| ==> v.row.files[k].staged == w.row.files[k].staged
    ensures Course(v, plan, map[])
  {
    assert forall k: nat :: Staged(v, k) == Staged(w, k) && StagedIno(v, k) == StagedIno(w, k);
    hide Bound, Laid, Staged, StagedIno;
    assert forall n: Name, i: Ino :: StagedAs(v, n, i) == StagedAs(w, n, i);
  }

  // ----- Ancestors -----

  /** Path `q` leads to directory `d` on the root's device. */
  ghost predicate At(plan: Plan, fs: FS, q: Path, d: Ino) {
    Walk(fs, plan.root, q) == Some(d) && IsDir(fs, d) && Device(fs, d) == Device(plan.start, plan.root)
  }

  /** `p` is a directory an export can pass through: one of the preview, or one it made. */
  ghost predicate Through(plan: Plan, p: Path) {
    p !in plan.done &&
    (p in plan.dirs
     || (Walk(plan.start, plan.root, p).Some?
         && Passable(plan.start, Walk(plan.start, plan.root, p).value, Device(plan.start, plan.root))))
  }

  lemma NoGit(plan: Plan, fs: FS, p: Path)
    requires Laid(plan, fs) && Outside(p, plan.staging) && p != [] && Walk(fs, plan.root, p).Some?
    requires p in plan.dirs
             || (p !in plan.done && Walk(plan.start, plan.root, p).Some? && ".git" !in Entries(plan.start, Walk(plan.start, plan.root, p).value))
    ensures ".git" !in Entries(fs, Walk(fs, plan.root, p).value)
  {
    var g := p + [".git"];
    assert Outside(g, plan.staging);
    assert ".git" in g;
    assert !Paths.Ordinary(".git");
    assert !NewPath(plan, g);
    assert g !in plan.dirs && g !in plan.done;
    assert LaidAt(plan, fs, g);
    WalkStep(fs, plan.root, p, ".git");
    WalkStep(plan.start, plan.root, p, ".git");
    assert p in plan.dirs ==> NewPath(plan, p);
  }

  /** A directory that was there at the preview, or that this export made, is entered. */
  lemma Entered(plan: Plan, fs: FS, q: Path, n: Name)
    requires Laid(plan, fs) && Outside(q + [n], plan.staging) && Walk(fs, plan.root, q).Some?
    requires Through(plan, q + [n])
    ensures var p, d := q + [n], Walk(fs, plan.root, q).value;
            && n in Entries(fs, d)
            && OpenChildIn(fs, d, n, Device(plan.start, plan.root)) == (Ok(Entries(fs, d)[n]), false)
            && At(plan, fs, p, Entries(fs, d)[n])
            && (p !in plan.dirs ==> Some(Entries(fs, d)[n]) == Walk(plan.start, plan.root, p))
  {
    var p, d := q + [n], Walk(fs, plan.root, q).value;
    assert LaidAt(plan, fs, p);
    WalkStep(fs, plan.root, q, n);
    NoGit(plan, fs, p);
  }

  /** A new path whose parent is there can be created. */
  lemma Creatable(plan: Plan, fs: FS, q: Path, n: Name)
    requires Laid(plan, fs) && Outside(q + [n], plan.staging) && Walk(fs, plan.root, q).Some?
    requires var p := q + [n]; p !in plan.dirs && p !in plan.done && Walk(plan.start, plan.root, p).None?
    ensures n !in Entries(fs, Walk(fs, plan.root, q).value)
  {
    assert LaidAt(plan, fs, q + [n]);
    WalkStep(fs, plan.root, q, n);
  }

  lemma CourseMkdir(w: World, v: World, plan: Plan, q: Path, n: Name)
    requires Safe(w) && Course(w, plan, map[]) && Outside(q + [n], plan.staging) && Walk(w.fs, plan.root, q).Some?
    requires var d, p := Walk(w.fs, plan.root, q).value, q + [n];
             && d != w.ours.value && At(plan, w.fs, q, d)
             && NewPath(plan, p) && p !in plan.dirs && p !in plan.done
             && v.row == w.row && v.moved == w.moved && v.ours == w.ours
             && (Mkdir(w.fs, d, n).Ok? ==> v.fs == Mkdir(w.fs, d, n).value)
    ensures var d, p := Walk(w.fs, plan.root, q).value, q + [n];
            && Mkdir(w.fs, d, n).Ok? && Course(v, plan.(dirs := plan.dirs + {p}), map[])
            && OpenChildIn(v.fs, d, n, Device(plan.start, plan.root)) == (Ok(w.fs.next), false)
            && At(plan, v.fs, p, w.fs.next)
  {
    IsUnderway(w, plan, map[]);
    Creatable(plan, w.fs, q, n);
    assert Mkdir(w.fs, Walk(w.fs, plan.root, q).value, n).Ok?;
    DirectoryMade(plan, w.fs, w.ours.value, q, n);
    StagedAsKept(w, v);
    hide Laid, Mkdir, Bound, Safe, StagedAs, NewPath, OpenChildIn;
    assert Ready(v, map[]);
  }

  lemma CourseMove(w: World, v: World, plan: Plan, k: nat, q: Path)
    requires Safe(w) && Course(w, plan, map[]) && Staged(w, k) && k !in w.moved
    requires var p, n := w.row.files[k].destination, Base(w.row.files[k].destination);
             && p == q + [n] && Outside(p, plan.staging) && Walk(w.fs, plan.root, q).Some?
             && (var d := Walk(w.fs, plan.root, q).value;
                 && d != w.ours.value && At(plan, w.fs, q, d)
                 && NewPath(plan, p) && p !in plan.dirs && p !in plan.done
                 && v.row == w.row && v.ours == w.ours
                 && (RenameNoReplace(w.fs, w.ours.value, SeqName(k), d, n).Ok? ==>
                       v.moved.Keys == w.moved.Keys + {k} && v.fs == RenameNoReplace(w.fs, w.ours.value, SeqName(k), d, n).value))
    ensures var p, n, d := w.row.files[k].destination, Base(w.row.files[k].destination), Walk(w.fs, plan.root, q).value;
            && RenameNoReplace(w.fs, w.ours.value, SeqName(k), d, n).Ok?
            && Course(v, plan.(done := plan.done[p := w.row.files[k].expected]), map[])
            && Open(v.fs, d, n).Ok?
  {
    var p, n, d := w.row.files[k].destination, Base(w.row.files[k].destination), Walk(w.fs, plan.root, q).value;
    var s, i := w.ours.value, StagedIno(w, k);
    IsUnderway(w, plan, map[]);
    Creatable(plan, w.fs, q, n);
    assert StagedAs(w, SeqName(k), i);
    assert Bound(w.fs, s, SeqName(k), i);
    assert Entries(w.fs, s)[SeqName(k)] == i;
    assert RenameNoReplace(w.fs, s, SeqName(k), d, n).Ok?;
    FileMoved(plan, w.fs, s, SeqName(k), q, n, w.row.files[k].expected);
    RenameNames(w.fs, s, SeqName(k), d, n);
  }

  /** With every staged file moved, the staging directory is empty and goes; then every path leads where the plan says. */
  lemma CourseEnds(w: World, plan: Plan)
    requires Safe(w) && Course(w, plan, map[]) && forall k: nat :: Staged(w, k) ==> k in w.moved
    ensures Entries(w.fs, w.ours.value) == map[] && Rmdir(w.fs, w.row.root, w.row.stagingName).Ok?
    ensures var after := Rmdir(w.fs, w.row.root, w.row.stagingName).value;
            Laid(plan, after) && plan.staging !in Entries(after, plan.root)
  {
    var s := w.ours.value;
    IsUnderway(w, plan, map[]);
    forall n: Name
      ensures n !in Entries(w.fs, s)
    {
      NoBound(w.fs, s, n);
    }
    assert Entries(w.fs, s) == map[];
    assert Rmdir(w.fs, w.row.root, w.row.stagingName).Ok?;
    StagingRemoved(plan, w.fs, s);
  }

  // ----- What has been added so far -----

  /** Directory `p` was missing at the start and is on the way to one of the first `n` files to create. */
  ghost predicate NeededDir(start: FS, root: Ino, files: seq<FileRow>, n: nat, p: Path) {
    && Walk(start, root, p).None?
    && exists k: nat, m: nat {:trigger files[k].destination[..m]} ::
         k < n && k < |files| && files[k].kind == Create && 0 < m < |files[k].destination| && p == files[k].destination[..m]
  }

  /** What the plan has added is exactly what the first `n` files ask for. */
  ghost predicate MadeFor(plan: Plan, files: seq<FileRow>, n: nat) {
    && n <= |files|
    && (forall p :: p in plan.dirs <==> NeededDir(plan.start, plan.root, files, n, p))
    && (forall p :: p in plan.done ==> exists k: nat :: k < n && files[k].kind == Create && files[k].destination == p)
    && (forall k: nat :: k < n && files[k].kind == Create ==>
          files[k].destination in plan.done && plan.done[files[k].destination] == files[k].expected)
  }

  /** File `f` is next: it is planned, and nothing added so far stands in its way. */
  ghost predicate Arrives(plan: Plan, approved: map<Path, Ancestor>, destination: Path, kind: Class, expected: ByteString) {
    && PlannedFile(plan.start, plan.root, approved, destination, kind, expected)
    && destination !in plan.dirs && destination !in plan.done
    && forall m: nat {:trigger destination[..m]} :: m <= |destination| ==> destination[..m] !in plan.done
  }

  lemma NextArrives(plan: Plan, row: Export, n: nat)
    requires Planned(plan.start, row) && plan.root == row.root && MadeFor(plan, row.files, n) && n < |row.files|
    ensures var f := row.files[n]; Arrives(plan, row.approved, f.destination, f.kind, f.expected)
  {
    var f := row.files[n];
    hide PlannedFile;
    assert f.destination[..|f.destination|] == f.destination;
  }

  /** The directories added for one destination, up to its first `m` components. */
  ghost predicate AddedFor(plan: Plan, after: Plan, destination: Path, m: nat) {
    && after == plan.(dirs := after.dirs)
    && forall p :: p in after.dirs <==>
         (p in plan.dirs
          || (Walk(plan.start, plan.root, p).None? && exists j: nat {:trigger destination[..j]} :: 0 < j <= m <= |destination| && p == destination[..j]))
  }

  lemma AddedNext(plan: Plan, mid: Plan, after: Plan, destination: Path, m: nat)
    requires AddedFor(plan, mid, destination, m) && m < |destination|
    requires var here := destination[..m + 1];
             after == if here in mid.dirs || Walk(plan.start, plan.root, here).Some? then mid else mid.(dirs := mid.dirs + {here})
    ensures AddedFor(plan, after, destination, m + 1)
  {
    hide Walk;
  }

  lemma MadeForCreated(plan: Plan, mid: Plan, after: Plan, files: seq<FileRow>, n: nat)
    requires MadeFor(plan, files, n) && n < |files| && files[n].kind == Create && files[n].destination != []
    requires NoClash(files)
    requires AddedFor(plan, mid, files[n].destination, |files[n].destination| - 1)
    requires after == mid.(done := mid.done[files[n].destination := files[n].expected])
    ensures MadeFor(after, files, n + 1)
  {
    hide Walk;
    var f := files[n].destination;
    forall p
      ensures p in after.dirs <==> NeededDir(plan.start, plan.root, files, n + 1, p)
    {
      if p in after.dirs {
        if NeededDir(plan.start, plan.root, files, n, p) {
        } else {
          var j: nat :| 0 < j <= |f| - 1 && p == f[..j];
          assert p == files[n].destination[..j];
        }
      }
      if NeededDir(plan.start, plan.root, files, n + 1, p) {
        var k: nat, m: nat :| k < n + 1 && files[k].kind == Create
          && 0 < m < |files[k].destination| && p == files[k].destination[..m];
        if k == n {
          assert p == f[..m];
        }
      }
    }
    forall k: nat | k < n && files[k].kind == Create
      ensures files[k].destination in after.done && after.done[files[k].destination] == files[k].expected
    {
      assert files[k].destination != files[n].destination;
    }
  }

  lemma MadeForIdentical(plan: Plan, files: seq<FileRow>, n: nat)
    requires MadeFor(plan, files, n) && n < |files| && files[n].kind != Create
    ensures MadeFor(plan, files, n + 1)
  {
    hide Walk;
    forall p
      ensures NeededDir(plan.start, plan.root, files, n, p) <==> NeededDir(plan.start, plan.root, files, n + 1, p)
    {
      if NeededDir(plan.start, plan.root, files, n + 1, p) {
        var k: nat, m: nat :| k < n + 1 && files[k].kind == Create
          && 0 < m < |files[k].destination| && p == files[k].destination[..m];
        assert k < n && p == files[k].destination[..m];
      }
    }
  }

  // ----- The beginning and the end -----

  lemma LaidAtStart(start: FS, root: Ino, staging: Name)
    requires Tree(start, root)
    ensures Laid(Plan(start, root, staging, {}, map[]), start)
  {
    var plan := Plan(start, root, staging, {}, map[]);
    forall p: Path
      ensures LaidAt(plan, start, p)
    {
      assert Walk(start, root, p).Some? ==> SameThing(start, start, Walk(start, root, p).value);
    }
    assert UniqueDirs(start, root, staging);
  }

  /** The tree an export leaves: the old tree, every file to create with its approved bytes, exactly the directories missing on the way to them, and nothing else. */
  ghost predicate Complete(start: FS, fs: FS, root: Ino, files: seq<FileRow>) {
    && (forall p: Path, k: nat {:trigger Walk(fs, root, p), files[k]} :: k < |files| && files[k].kind == Create && files[k].destination == p ==>
          ViewAt(fs, root, p) == Contents(files[k].expected))
    && (forall p: Path {:trigger Walk(fs, root, p)} :: NeededDir(start, root, files, |files|, p) ==> ViewAt(fs, root, p) == Directory)
    && (forall p: Path {:trigger Walk(fs, root, p)} ::
          !NeededDir(start, root, files, |files|, p) && (forall k: nat :: k < |files| && files[k].kind == Create ==> files[k].destination != p)
          ==> Walk(fs, root, p) == Walk(start, root, p) && ViewAt(fs, root, p) == ViewAt(start, root, p))
  }

  lemma NeededIsNoFile(plan: Plan, files: seq<FileRow>, p: Path)
    requires NoClash(files) && MadeFor(plan, files, |files|) && NeededDir(plan.start, plan.root, files, |files|, p)
    ensures p !in plan.done
  {
    hide Walk;
  }

  lemma LaidIsComplete(plan: Plan, fs: FS, files: seq<FileRow>)
    requires Laid(plan, fs) && MadeFor(plan, files, |files|)
    requires plan.staging !in Entries(plan.start, plan.root) && plan.staging !in Entries(fs, plan.root)
    requires plan.staging != "" && plan.staging[0] == '.'
    requires NoClash(files)
    ensures Complete(plan.start, fs, plan.root, files)
  {
    hide NeededDir;
    forall p: Path
      ensures if p in plan.done then Walk(fs, plan.root, p).Some? && ViewAt(fs, plan.root, p) == Contents(plan.done[p])
              else if p in plan.dirs then ViewAt(fs, plan.root, p) == Directory
              else Walk(fs, plan.root, p) == Walk(plan.start, plan.root, p) && ViewAt(fs, plan.root, p) == ViewAt(plan.start, plan.root, p)
    {
      if Outside(p, plan.staging) {
        assert LaidAt(plan, fs, p);
      } else {
        assert p in plan.done || p in plan.dirs ==> NewPath(plan, p) && Paths.Ordinary(p[0]);
      }
    }
    forall p: Path | NeededDir(plan.start, plan.root, files, |files|, p)
      ensures p !in plan.done
    {
      NeededIsNoFile(plan, files, p);
    }
  }

  /** What is found at a destination that already held the approved content. */
  lemma IdenticalOpens(plan: Plan, fs: FS, destination: Path, expected: ByteString, approved: map<Path, Ancestor>, d: Ino)
    requires Laid(plan, fs) && Arrives(plan, approved, destination, Identical, expected)
    requires destination != [] && Outside(destination, plan.staging)
    requires Walk(fs, plan.root, destination[..|destination| - 1]) == Some(d)
    ensures Open(fs, d, Base(destination)).Ok?
    ensures var i := Open(fs, d, Base(destination)).value; i in fs.nodes && fs.nodes[i].File? && fs.nodes[i].data == expected
  {
    assert LaidAt(plan, fs, destination);
    assert destination == destination[..|destination| - 1] + [Base(destination)];
    WalkStep(fs, plan.root, destination[..|destination| - 1], Base(destination));
  }

  ghost predicate ArrivesAt(plan: Plan, row: Export, k: nat) {
    k < |row.files| && Arrives(plan, row.approved, row.files[k].destination, row.files[k].kind, row.files[k].expected)
  }

  /** What stands at the next ancestor of a destination, and what creating and entering it will say. */
  lemma BeforeEntering(w: World, plan: Plan, k: nat, m: nat, current: Ino)
    requires Safe(w) && Course(w, plan, map[]) && ArrivesAt(plan, w.row, k) && m + 1 < |w.row.files[k].destination|
    requires At(plan, w.fs, w.row.files[k].destination[..m], current)
    ensures var here, n := w.row.files[k].destination[..m + 1], w.row.files[k].destination[m];
            && here == w.row.files[k].destination[..m] + [n] && Outside(here, plan.staging)
            && (WasPresent(w.row.approved, here) <==> Walk(plan.start, plan.root, here).Some?)
            && (WasPresent(w.row.approved, here) ==> here !in plan.dirs)
            && (WasPresent(w.row.approved, here) || here in plan.dirs ==>
                  && Mkdir(w.fs, current, n) == Err(Exists)
                  && n in Entries(w.fs, current) && At(plan, w.fs, here, Entries(w.fs, current)[n])
                  && OpenChildIn(w.fs, current, n, Device(plan.start, plan.root)) == (Ok(Entries(w.fs, current)[n]), false)
                  && (WasPresent(w.row.approved, here) ==> Entries(w.fs, current)[n] == w.row.approved[here].ino))
            && (!WasPresent(w.row.approved, here) && here !in plan.dirs ==> NewPath(plan, here) && here !in plan.done)
  {
    var f := w.row.files[k];
    var here, n := f.destination[..m + 1], f.destination[m];
    assert here == f.destination[..m] + [n];
    assert Outside(here, plan.staging) && (forall c <- here :: Paths.Ordinary(c)) by {
      assert forall c <- here :: c in f.destination;
      assert here[0] in here;
    }
    assert current < w.fs.next;
    hide Walk, OpenChildIn, Passable, Laid, Safe, Arrives, Ready;
    assert here in plan.dirs ==> NewPath(plan, here) by {
      LaidPaths(plan, w.fs, here);
    }
    if Through(plan, here) {
      Entered(plan, w.fs, f.destination[..m], n);
    }
  }

  lemma LaidPaths(plan: Plan, fs: FS, p: Path)
    requires Laid(plan, fs)
    ensures p in plan.dirs || p in plan.done ==> NewPath(plan, p)
  {
  }

  function ParentOf(p: Path): Path {
    if p == [] then [] else p[..|p| - 1]
  }

  lemma StillArrives(plan: Plan, after: Plan, row: Export, k: nat, here: Path)
    requires ArrivesAt(plan, row, k) && here != row.files[k].destination
    requires after == plan || after == plan.(dirs := plan.dirs + {here})
    ensures ArrivesAt(after, row, k)
  {
    hide PlannedFile;
  }

  lemma BeforeMoving(w: World, plan: Plan, k: nat)
    requires Safe(w) && Course(w, plan, map[]) && ArrivesAt(plan, w.row, k) && w.row.files[k].kind == Create
    ensures var p := w.row.files[k].destination;
            p == ParentOf(p) + [Base(p)] && Outside(p, plan.staging) && NewPath(plan, p) && p !in plan.dirs && p !in plan.done
  {
    hide Laid, Walk, Ready;
    assert w.row.files[k].destination[0] in w.row.files[k].destination;
  }

  lemma EnteredOnCourse(w: World, plan: Plan, destination: Path, m: nat, current: Ino)
    requires Course(w, plan, map[]) && Safe(w) && m + 1 < |destination| && (forall n <- destination :: Paths.Ordinary(n))
    requires At(plan, w.fs, destination[..m], current) && Through(plan, destination[..m + 1])
    ensures destination[m] in Entries(w.fs, current)
    ensures var j := Entries(w.fs, current)[destination[m]];
            At(plan, w.fs, destination[..m + 1], j)
            && OpenChildIn(w.fs, current, destination[m], Device(plan.start, plan.root)) == (Ok(j), false)
  {
    var here := destination[..m + 1];
    assert here == destination[..m] + [destination[m]];
    assert Outside(here, plan.staging) by {
      assert destination[0] in destination && here[0] == destination[0];
    }
    hide Walk, OpenChildIn, Passable, Laid, Safe, Ready, Through;
    Entered(plan, w.fs, destination[..m], destination[m]);
  }

  lemma AllThrough(plan: Plan, row: Export, k: nat)
    requires ArrivesAt(plan, row, k) && row.files[k].kind == Identical
    ensures var p := row.files[k].destination;
            forall m: nat {:trigger p[..m]} :: 0 < m < |p| ==> Through(plan, p[..m])
  {
    var f := row.files[k];
    forall m: nat | 0 < m < |f.destination|
      ensures Through(plan, f.destination[..m])
    {
    }
  }

  lemma IdenticalOnCourse(w: World, plan: Plan, k: nat, d: Ino)
    requires Safe(w) && Course(w, plan, map[]) && ArrivesAt(plan, w.row, k) && w.row.files[k].kind == Identical
    requires At(plan, w.fs, ParentOf(w.row.files[k].destination), d)
    ensures var found := Open(w.fs, d, Base(w.row.files[k].destination));
            found.Ok? && found.value in w.fs.nodes && w.fs.nodes[found.value].File?
            && w.fs.nodes[found.value].data == w.row.files[k].expected
  {
    var p := w.row.files[k].destination;
    assert p[0] in p;
    hide Laid, Walk, Ready;
    IdenticalOpens(plan, w.fs, p, w.row.files[k].expected, w.row.approved, d);
  }

  lemma NothingMadeYet(plan: Plan, files: seq<FileRow>)
    requires plan.dirs == {} && plan.done == map[]
    ensures MadeFor(plan, files, 0)
  {
  }

  lemma StagingCanBeMade(w: World)
    requires Safe(w) && IsDir(w.fs, w.row.root) && w.row.stagingName !in Entries(w.fs, w.row.root)
    ensures Mkdir(w.fs, w.row.root, w.row.stagingName).Ok?
  {
  }
}
