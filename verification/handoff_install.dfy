/** Installing attached files into a fresh clone. */
module HandoffInstall {
  import opened Bytes
  import opened Filesystem
  import opened ExportJournal
  import opened ExportSafety
  import opened ExportTree
  import opened ExportCourse
  import opened Wrappers
  import HandoffPlan
  import Paths

  type Attachment = HandoffPlan.Attachment
  type AttachedFile = HandoffPlan.AttachedFile

  /** What was there before is still there, under every name it had, and unchanged. */
  ghost predicate Kept(before: FS, after: FS) {
    && (forall d: Ino, n: Name, i: Ino :: Bound(before, d, n, i) ==> Bound(after, d, n, i))
    && (forall i: Ino :: i < before.next ==> SameThing(before, after, i))
    && before.next <= after.next
  }

  /** No directory has an entry called `.`; the plan uses that name for the staging directory this installation does not have. */
  const NO_STAGING: Name := "."

  /** A plan step that touches nothing but what it adds. */
  ghost predicate Ground(plan: Plan, fs: FS) {
    && Laid(plan, fs) && plan.staging == NO_STAGING && Device(fs, plan.root) == Device(plan.start, plan.root)
    && NO_STAGING !in Entries(fs, plan.root)
    && forall p :: p in plan.done ==> OnDevice(plan, fs, p)
  }

  /** A new entry with an ordinary name leaves the reserved name unused. */
  lemma StillNoDot(before: FS, after: FS, root: Ino, d: Ino, n: Name, i: Ino)
    requires NO_STAGING !in Entries(before, root) && n != NO_STAGING
    requires forall e: Ino, m: Name, j: Ino :: Bound(after, e, m, j) ==> Bound(before, e, m, j) || (e == d && m == n && j == i)
    ensures NO_STAGING !in Entries(after, root)
  {
    NoBound(after, root, NO_STAGING);
    NoBound(before, root, NO_STAGING);
  }

  lemma LastIsOrdinary(plan: Plan, q: Path, n: Name)
    requires NewPath(plan, q + [n])
    ensures Paths.Ordinary(n)
  {
    assert (q + [n])[|q|] in q + [n];
  }

  /** What `p` leads to is on the clone's own file system. */
  predicate OnDevice(plan: Plan, fs: FS, p: Path) {
    var w := Walk(fs, plan.root, p);
    w.Some? && Device(fs, w.value) == Device(plan.start, plan.root)
  }

  ghost predicate Sound(fs: FS, root: Ino) {
    WellFormed(fs) && IsDir(fs, root) && root < fs.next
  }

  /** A file at `p` can be installed: nothing is at `p`, and what is above it is a directory or missing. */
  ghost predicate Room(plan: Plan, p: Path) {
    && NewPath(plan, p) && p !in plan.dirs && p !in plan.done
    && forall m: nat {:trigger p[..m]} :: 0 < m < |p| ==>
         p[..m] !in plan.done
         && (Walk(plan.start, plan.root, p[..m]).None? || DirAt(plan, Walk(plan.start, plan.root, p[..m]).value))
  }

  predicate DirAt(plan: Plan, i: Ino) {
    IsDir(plan.start, i) && Device(plan.start, i) == Device(plan.start, plan.root)
  }

  /** A new file is created and written. */
  lemma FileCreated(plan: Plan, fs: FS, q: Path, n: Name, data: ByteString)
    requires Ground(plan, fs) && Sound(fs, plan.root) && Outside(q + [n], plan.staging)
    requires Walk(fs, plan.root, q).Some? && NewPath(plan, q + [n]) && q + [n] !in plan.dirs && q + [n] !in plan.done
    requires var d := Walk(fs, plan.root, q).value; CreateFile(fs, d, n).Ok?
    ensures var d := Walk(fs, plan.root, q).value;
            var made := CreateFile(fs, d, n).value;
            && WriteFile(made, fs.next, data).Ok?
            && Laid(plan.(done := plan.done[q + [n] := data]), WriteFile(made, fs.next, data).value)
            && Device(WriteFile(made, fs.next, data).value, plan.root) == Device(fs, plan.root)
            && DoneKept(fs, WriteFile(made, fs.next, data).value, plan)
            && (NO_STAGING !in Entries(fs, plan.root) ==> NO_STAGING !in Entries(WriteFile(made, fs.next, data).value, plan.root))
            && Walk(WriteFile(made, fs.next, data).value, plan.root, q + [n]) == Some(fs.next)
            && Device(WriteFile(made, fs.next, data).value, fs.next) == Device(fs, d)
  {
    var d, p := Walk(fs, plan.root, q).value, q + [n];
    var made := CreateFile(fs, d, n).value;
    NoBound(fs, d, n);
    AddNodeNames(fs, d, n, File(Device(fs, d), [], 1));
    assert made.nodes[fs.next] == File(Device(fs, d), [], 1);
    assert WriteFile(made, fs.next, data).Ok?;
    var after := WriteFile(made, fs.next, data).value;
    WriteNames(made, fs.next, data);
    assert forall m: Name, j: Ino :: !Bound(fs, fs.next, m, j);
    var e := Entry(d, n, fs.next);
    assert Step(fs, after, plan, plan.(done := plan.done[p := data]), fs.next + 1, q, Some(e)) by {
      hide Bound, AddNode, Laid, WriteFile, CreateFile;
      forall i: Ino | i < fs.next
        ensures SameThing(fs, after, i)
      {
      }
      SameThings(fs, after, plan, fs.next + 1);
    }
    LastIsOrdinary(plan, q, n);
    if NO_STAGING !in Entries(fs, plan.root) {
      StillNoDot(fs, after, plan.root, d, n, fs.next);
    }
    hide Step, CreateFile, WriteFile, Bound, AddNode, DoneKept;
    DoneAfter(fs, after, plan, plan.(done := plan.done[p := data]), fs.next + 1, q, Some(e));
    WalkAfter(fs, after, plan, fs.next + 1, Some(e), q, p);
    LaidAfter(fs, after, plan, plan.(done := plan.done[p := data]), fs.next + 1, q, Some(e));
  }

  lemma KeptByMkdir(start: FS, fs: FS, root: Ino, d: Ino, n: Name)
    requires Kept(start, fs) && Sound(fs, root) && WellFormed(start) && Mkdir(fs, d, n).Ok?
    ensures Kept(start, Mkdir(fs, d, n).value) && Sound(Mkdir(fs, d, n).value, root)
  {
    AddNodeNames(fs, d, n, Dir(Device(fs, d), map[]));
    hide Bound, AddNode;
    var after := Mkdir(fs, d, n).value;
    forall i: Ino | i < start.next
      ensures SameThing(start, after, i)
    {
      assert SameThing(start, fs, i);
      assert SameThing(fs, after, i);
    }
  }

  lemma KeptByCreate(start: FS, fs: FS, root: Ino, d: Ino, n: Name)
    requires Kept(start, fs) && Sound(fs, root) && WellFormed(start) && CreateFile(fs, d, n).Ok?
    ensures Kept(start, CreateFile(fs, d, n).value) && Sound(CreateFile(fs, d, n).value, root)
    ensures fs.next in CreateFile(fs, d, n).value.nodes && CreateFile(fs, d, n).value.nodes[fs.next].File? && start.next <= fs.next
  {
    AddNodeNames(fs, d, n, File(Device(fs, d), [], 1));
    hide Bound, AddNode;
    var after := CreateFile(fs, d, n).value;
    forall i: Ino | i < start.next
      ensures SameThing(start, after, i)
    {
      assert SameThing(start, fs, i);
      assert SameThing(fs, after, i);
    }
  }

  lemma KeptByWrite(start: FS, fs: FS, root: Ino, i: Ino, data: ByteString)
    requires Kept(start, fs) && Sound(fs, root) && WellFormed(start) && start.next <= i && WriteFile(fs, i, data).Ok?
    ensures Kept(start, WriteFile(fs, i, data).value) && Sound(WriteFile(fs, i, data).value, root)
  {
    WriteNames(fs, i, data);
    hide Bound;
    var after := WriteFile(fs, i, data).value;
    forall j: Ino | j < start.next
      ensures SameThing(start, after, j)
    {
      assert SameThing(start, fs, j);
      assert SameThing(fs, after, j);
    }
  }

  // ----- What stays where it was found -----

  lemma {:induction false} WalkStays(before: FS, after: FS, d: Ino, p: Path)
    requires Kept(before, after) && Walk(before, d, p).Some?
    ensures Walk(after, d, p) == Walk(before, d, p)
    decreases |p|
  {
    if p != [] {
      assert Bound(before, d, p[0], Entries(before, d)[p[0]]);
      WalkStays(before, after, Entries(before, d)[p[0]], p[1..]);
    }
  }

  lemma ViewStays(before: FS, after: FS, root: Ino, p: Path)
    requires WellFormed(before) && Kept(before, after) && ViewAt(before, root, p).Contents?
    ensures ViewAt(after, root, p) == ViewAt(before, root, p)
  {
    WalkStays(before, after, root, p);
    assert SameThing(before, after, Walk(before, root, p).value);
  }

  /** One directory further on the way to `p`. */
  lemma OneFurther(before: FS, fs: FS, root: Ino, p: Path, m: nat, current: Ino)
    requires m < |p| && Walk(before, root, p[..m]) == Some(current) && Kept(before, fs) && OpenDir(fs, current, p[m]).Ok?
    ensures Walk(fs, root, p[..m + 1]) == Some(OpenDir(fs, current, p[m]).value)
  {
    WalkStays(before, fs, root, p[..m]);
    WalkStep(fs, root, p[..m], p[m]);
    assert p[..m + 1] == p[..m] + [p[m]];
  }

  lemma FoundHere(fs: FS, root: Ino, p: Path, current: Ino)
    requires p != [] && Walk(fs, root, p[..|p| - 1]) == Some(current) && Open(fs, current, Base(p)).Ok?
    ensures Walk(fs, root, p) == Some(Open(fs, current, Base(p)).value)
  {
    hide Walk;
    WalkStep(fs, root, p[..|p| - 1], Base(p));
    assert p == p[..|p| - 1] + [Base(p)];
  }

  // ----- The ancestors of a destination -----

  /** What stands at the next ancestor, and what creating and entering it will say. */
  lemma NextAncestor(plan: Plan, fs: FS, p: Path, m: nat, current: Ino)
    requires Ground(plan, fs) && Sound(fs, plan.root) && Room(plan, p) && m + 1 < |p| && At(plan, fs, p[..m], current)
    ensures var here, n := p[..m + 1], p[m];
            && here == p[..m] + [n] && Outside(here, plan.staging)
            && (here in plan.dirs || Walk(plan.start, plan.root, here).Some? ==>
                  && Mkdir(fs, current, n) == Err(Exists) && n in Entries(fs, current)
                  && At(plan, fs, here, Entries(fs, current)[n]))
            && (here !in plan.dirs && Walk(plan.start, plan.root, here).None? ==>
                  NewPath(plan, here) && here !in plan.done && Mkdir(fs, current, n).Ok?)
  {
    var here, n := p[..m + 1], p[m];
    assert here == p[..m] + [n];
    assert Outside(here, plan.staging) && (forall c <- here :: Paths.Ordinary(c)) by {
      assert forall c <- here :: c in p;
      assert here[0] in here;
    }
    assert LaidAt(plan, fs, here);
    WalkStep(fs, plan.root, p[..m], n);
    NoBound(fs, current, n);
    hide Walk;
    assert current < fs.next;
  }

  lemma EnteredAgain(plan: Plan, fs: FS, q: Path, n: Name)
    requires Ground(plan, fs) && Sound(fs, plan.root) && Outside(q + [n], plan.staging) && Walk(fs, plan.root, q).Some?
    requires var d, p := Walk(fs, plan.root, q).value, q + [n];
             && At(plan, fs, q, d) && NewPath(plan, p) && p !in plan.dirs && p !in plan.done && Mkdir(fs, d, n).Ok?
    ensures var d, p := Walk(fs, plan.root, q).value, q + [n];
            var after := Mkdir(fs, d, n).value;
            && Ground(plan.(dirs := plan.dirs + {p}), after) && At(plan, after, p, fs.next) && OpenDir(after, d, n) == Ok(fs.next)
  {
    DirectoryMade(plan, fs, fs.next + 1, q, n);
    hide Laid, Walk, Bound, Mkdir;
    LastIsOrdinary(plan, q, n);
    StillNoDot(fs, Mkdir(fs, Walk(fs, plan.root, q).value, n).value, plan.root, Walk(fs, plan.root, q).value, n, fs.next);
  }

  /** Room for the rest of a file's ancestors remains when one of them is made. */
  lemma RoomKept(plan: Plan, after: Plan, p: Path, here: Path)
    requires Room(plan, p) && here != p && (after == plan || after == plan.(dirs := plan.dirs + {here}))
    ensures Room(after, p)
  {
    hide Walk;
  }

  /** The task's fresh clone. */
  class Workspace {
    var fs: FS
    const root: Ino

    constructor (fs: FS, root: Ino)
      ensures this.fs == fs && this.root == root
    {
      this.fs, this.root := fs, root;
    }

    /** Nothing that was there in `start` has been touched. */
    ghost predicate Valid(start: FS)
      reads this
    {
      WellFormed(start) && Sound(fs, root) && Kept(start, fs)
    }

    lemma Formed(start: FS)
      requires Valid(start)
      ensures WellFormed(fs)
    {
    }

    /** `_descend`: opens, creating as needed, every directory of a destination. */
    method Descend(p: Path, ghost start: FS, ghost plan: Plan) returns (parent: Result<Ino>, ghost after: Plan)
      requires Valid(start)
      modifies this`fs
      ensures Valid(start)
      ensures old(Ground(plan, fs)) && plan.root == root && p != [] && Room(plan, p) ==>
                && Ground(after, fs) && after.root == plan.root && after.start == plan.start
                && AddedFor(plan, after, p, |p| - 1) && parent.Ok? && At(after, fs, p[..|p| - 1], parent.value)
    {
      hide Kept, Sound, Ground, Room, Walk, Mkdir, OpenDir, AddedFor;
      after := plan;
      ghost var quiet := Ground(plan, fs) && plan.root == root && p != [] && Room(plan, p);
      var device := Device(fs, root);
      var current := root;
      var m := 0;
      if quiet {
        AtRoot(plan, fs, p);
      }
      while m < |p| - 1
        invariant 0 <= m && (quiet ==> m <= |p| - 1) && Valid(start)
        invariant quiet ==> Ground(after, fs) && Room(after, p) && AddedFor(plan, after, p, m) && At(after, fs, p[..m], current)
        invariant quiet ==> after.root == plan.root == root && after.start == plan.start && device == Device(plan.start, plan.root)
      {
        ghost var here, mid, was := p[..m + 1], after, fs;
        if quiet {
          NextAncestor(after, fs, p, m, current);
        }
        match Mkdir(fs, current, p[m]) {
          case Ok(made) =>
            KeptByMkdir(start, fs, root, current, p[m]);
            if quiet {
              assert here == p[..m] + [p[m]];
              EnteredAgain(after, fs, p[..m], p[m]);
              after := after.(dirs := after.dirs + {here});
            }
            fs := made;
          case Err(e) =>
            if e != Exists {
              return Err(Other), after;
            }
        }
        var next := OpenDir(fs, current, p[m]);
        if quiet {
          Opened(after, was, fs, current, p[m], here, mid);
        }
        if next.Err? || Device(fs, next.value) != device {
          return Err(Other), after;
        }
        if quiet {
          AncestorAdded(plan, mid, after, p, m);
          RoomKept(mid, after, p, here);
        }
        current := next.value;
        m := m + 1;
      }
      parent := Ok(current);
    }

    /** `_install_one`: creates the file exclusively and writes it. */
    method InstallOne(p: Path, data: ByteString, ghost start: FS, ghost plan: Plan) returns (ok: bool, ghost after: Plan)
      requires Valid(start)
      modifies this`fs
      ensures Valid(start)
      ensures old(Ground(plan, fs)) && plan.root == root && p != [] && Room(plan, p) ==>
                ok && Ground(after, fs) && exists mid :: AddedFor(plan, mid, p, |p| - 1) && after == mid.(done := mid.done[p := data])
    {
      hide Kept, Sound, Ground, Room, Walk, CreateFile, WriteFile, AddedFor, Laid;
      ghost var quiet := Ground(plan, fs) && plan.root == root && p != [] && Room(plan, p);
      var parent;
      parent, after := Descend(p, start, plan);
      if parent.Err? {
        return false, after;
      }
      ghost var mid := after;
      if quiet {
        RoomForFile(plan, mid, fs, p, parent.value, data);
        after := mid.(done := mid.done[p := data]);
      }
      match CreateFile(fs, parent.value, Base(p)) {
        case Err(_) =>
          return false, after;
        case Ok(made) =>
          KeptByCreate(start, fs, root, parent.value, Base(p));
          var i := fs.next;
          fs := made;
          match WriteFile(fs, i, data) {
            case Err(_) =>
              return false, after;
            case Ok(written) =>
              KeptByWrite(start, fs, root, i, data);
              fs := written;
          }
      }
      ok := true;
      if quiet {
        assert AddedFor(plan, mid, p, |p| - 1) && after == mid.(done := mid.done[p := data]);
      }
    }

    /** One file of `_verify_installed`: re-read and compared with what was accepted. */
    method VerifyOne(p: Path, content: ByteString, ghost start: FS, ghost plan: Plan) returns (ok: bool)
      requires Valid(start) && p != []
      modifies this`fs
      ensures Valid(start) && Kept(old(fs), fs)
      ensures ok ==> ViewAt(fs, root, p) == Contents(content)
      ensures old(Ground(plan, fs)) && plan.root == root && Arrived(plan, p, content) ==> ok && fs == old(fs)
    {
      assert WellFormed(fs) && Kept(fs, fs) by {
        Untouched(fs, root);
      }
      hide Kept, Sound, Ground, Walk, Mkdir, OpenDir, Open, Arrived, WellFormed;
      ghost var quiet := Ground(plan, fs) && plan.root == root && Arrived(plan, p, content);
      var device := Device(fs, root);
      var current := root;
      var m := 0;
      if quiet {
        AtRoot(plan, fs, p);
      }
      while m < |p| - 1
        invariant 0 <= m <= |p| - 1 && Valid(start) && Kept(old(fs), fs) && Walk(fs, root, p[..m]) == Some(current)
        invariant quiet ==> fs == old(fs) && At(plan, fs, p[..m], current) && device == Device(plan.start, plan.root)
      {
        if quiet {
          PassAgain(plan, fs, p, m, current, content);
        }
        ghost var was := fs;
        Untouched(fs, root);
        match Mkdir(fs, current, p[m]) {
          case Ok(made) =>
            KeptByMkdir(start, fs, root, current, p[m]);
            KeptByMkdir(old(fs), fs, root, current, p[m]);
            KeptByMkdir(fs, fs, root, current, p[m]);
            fs := made;
          case Err(e) =>
            if e != Exists {
              return false;
            }
        }
        var next := OpenDir(fs, current, p[m]);
        if next.Err? || Device(fs, next.value) != device {
          return false;
        }
        OneFurther(was, fs, root, p, m, current);
        current := next.value;
        m := m + 1;
      }
      if quiet {
        ReadAgain(plan, fs, p, current, content);
      }
      var found := Open(fs, current, Base(p));
      if found.Ok? {
        FoundHere(fs, root, p, current);
      }
      if found.Err? || !fs.nodes[found.value].File? || Device(fs, found.value) != device {
        return false;
      }
      ok := fs.nodes[found.value].data == content;
    }
  }

  lemma AtRoot(plan: Plan, fs: FS, p: Path)
    requires Ground(plan, fs) && Sound(fs, plan.root) && p != []
    ensures At(plan, fs, p[..0], plan.root) && AddedFor(plan, plan, p, 0)
    ensures Device(fs, plan.root) == Device(plan.start, plan.root)
  {
  }

  /** Opening an ancestor that was there or has just been made. */
  lemma Opened(plan: Plan, was: FS, fs: FS, d: Ino, n: Name, here: Path, mid: Plan)
    requires Ground(plan, fs) && plan.root == mid.root && plan.start == mid.start
    requires (fs == was && n in Entries(fs, d) && At(mid, fs, here, Entries(fs, d)[n]))
             || (OpenDir(fs, d, n) == Ok(was.next) && At(mid, fs, here, was.next))
    ensures OpenDir(fs, d, n).Ok? && At(plan, fs, here, OpenDir(fs, d, n).value)
  {
  }

  lemma AncestorAdded(plan: Plan, mid: Plan, after: Plan, p: Path, m: nat)
    requires AddedFor(plan, mid, p, m) && m < |p|
    requires (after == mid && (p[..m + 1] in mid.dirs || Walk(plan.start, plan.root, p[..m + 1]).Some?))
             || (after == mid.(dirs := mid.dirs + {p[..m + 1]}) && Walk(plan.start, plan.root, p[..m + 1]).None?)
    ensures AddedFor(plan, after, p, m + 1)
  {
    hide Walk;
  }

  /** Creating and writing the file itself, with its parent open. */
  lemma RoomForFile(plan: Plan, mid: Plan, fs: FS, p: Path, d: Ino, data: ByteString)
    requires Ground(mid, fs) && Sound(fs, mid.root) && p != [] && Room(plan, p) && AddedFor(plan, mid, p, |p| - 1)
    requires At(mid, fs, p[..|p| - 1], d)
    ensures CreateFile(fs, d, Base(p)).Ok? && WriteFile(CreateFile(fs, d, Base(p)).value, fs.next, data).Ok?
    ensures Ground(mid.(done := mid.done[p := data]), WriteFile(CreateFile(fs, d, Base(p)).value, fs.next, data).value)
  {
    var q := p[..|p| - 1];
    assert p == q + [Base(p)];
    assert p[0] in p;
    assert p !in mid.dirs by {
      hide Walk;
    }
    assert NewPath(mid, p);
    assert LaidAt(mid, fs, p);
    WalkStep(fs, mid.root, q, Base(p));
    hide Walk, Laid, DoneKept;
    assert CreateFile(fs, d, Base(p)).Ok?;
    FileCreated(mid, fs, q, Base(p), data);
    hide CreateFile, WriteFile;
    var after := WriteFile(CreateFile(fs, d, Base(p)).value, fs.next, data).value;
  }

  /** `p` has been installed with these bytes. */
  ghost predicate Arrived(plan: Plan, p: Path, content: ByteString) {
    && p in plan.done && plan.done[p] == content && NewPath(plan, p)
    && forall m: nat {:trigger p[..m]} :: 0 < m < |p| ==>
         p[..m] !in plan.done
         && (p[..m] in plan.dirs || (Walk(plan.start, plan.root, p[..m]).Some? && DirAt(plan, Walk(plan.start, plan.root, p[..m]).value)))
  }

  lemma PassAgain(plan: Plan, fs: FS, p: Path, m: nat, current: Ino, content: ByteString)
    requires Ground(plan, fs) && Sound(fs, plan.root) && Arrived(plan, p, content) && m + 1 < |p| && At(plan, fs, p[..m], current)
    ensures Mkdir(fs, current, p[m]) == Err(Exists) && OpenDir(fs, current, p[m]).Ok?
    ensures At(plan, fs, p[..m + 1], OpenDir(fs, current, p[m]).value)
  {
    var here, n := p[..m + 1], p[m];
    assert here == p[..m] + [n];
    assert p[0] in p && here[0] == p[0];
    assert LaidAt(plan, fs, here);
    WalkStep(fs, plan.root, p[..m], n);
    hide Walk;
    assert current < fs.next;
  }

  lemma ReadAgain(plan: Plan, fs: FS, p: Path, current: Ino, content: ByteString)
    requires Ground(plan, fs) && Arrived(plan, p, content) && At(plan, fs, p[..|p| - 1], current)
    ensures var found := Open(fs, current, Base(p));
            && found.Ok? && fs.nodes[found.value].File? && fs.nodes[found.value].data == content
            && Device(fs, found.value) == Device(plan.start, plan.root)
  {
    assert OnDevice(plan, fs, p);
    assert p == p[..|p| - 1] + [Base(p)];
    assert p[0] in p;
    assert LaidAt(plan, fs, p);
    WalkStep(fs, plan.root, p[..|p| - 1], Base(p));
  }

  // ----- All files of all bundles -----

  /** The files to install, as the rows the tree theory speaks about. */
  function Rows(files: seq<AttachedFile>): (rows: seq<FileRow>)
    ensures |rows| == |files|
  {
    seq(|files|, k requires 0 <= k < |files| => FileRow(Paths.Split(files[k].path), Create, files[k].content, None, Pending))
  }

  ghost predicate CanonicalFiles(files: seq<AttachedFile>) {
    forall f <- files :: Paths.Canonical(f.path)
  }

  /** A destination with room for it in the untouched tree. */
  ghost predicate FreeAt(fs: FS, root: Ino, p: Path) {
    && p != [] && (forall n <- p :: Paths.Ordinary(n)) && Walk(fs, root, p).None?
    && forall m: nat {:trigger p[..m]} :: 0 < m < |p| ==>
         Walk(fs, root, p[..m]).None? || (IsDir(fs, Walk(fs, root, p[..m]).value) && Device(fs, Walk(fs, root, p[..m]).value) == Device(fs, root))
  }

  /** Everything that makes an installation succeed. */
  ghost predicate Installable(fs: FS, root: Ino, files: seq<AttachedFile>) {
    && Tree(fs, root) && NO_STAGING !in Entries(fs, root) && NoClash(Rows(files))
    && forall k: nat :: k < |files| ==> FreeAt(fs, root, Rows(files)[k].destination)
  }

  lemma RoomNext(plan: Plan, files: seq<AttachedFile>, n: nat)
    requires Installable(plan.start, plan.root, files) && MadeFor(plan, Rows(files), n) && n < |files|
    ensures Room(plan, Rows(files)[n].destination)
  {
    var rows := Rows(files);
    var p := rows[n].destination;
    assert FreeAt(plan.start, plan.root, p);
    assert p[..|p|] == p;
    hide Walk, Rows;
    forall m: nat {:trigger p[..m]} | 0 < m <= |p|
      ensures p[..m] !in plan.done
    {
      assert forall k: nat :: k < n ==> rows[k].destination != p[..m] by {
        assert forall k: nat :: k < n ==> rows[k].destination != rows[n].destination;
      }
    }
    assert p !in plan.dirs by {
      assert forall k: nat, m: nat :: k < n && m < |rows[k].destination| ==> rows[n].destination != rows[k].destination[..m];
    }
  }

  lemma AllArrived(plan: Plan, files: seq<AttachedFile>, k: nat)
    requires Installable(plan.start, plan.root, files) && MadeFor(plan, Rows(files), |files|) && k < |files|
    ensures Arrived(plan, Rows(files)[k].destination, files[k].content)
  {
    var rows := Rows(files);
    var p := rows[k].destination;
    assert FreeAt(plan.start, plan.root, p) && rows[k].kind == Create && rows[k].expected == files[k].content;
    hide Walk, Rows;
    assert p in plan.done && plan.done[p] == files[k].content;
    forall m: nat {:trigger p[..m]} | 0 < m < |p|
      ensures p[..m] !in plan.done
      ensures Walk(plan.start, plan.root, p[..m]).None? ==> p[..m] in plan.dirs
    {
      assert forall j: nat :: j < |files| ==> rows[j].destination != rows[k].destination[..m];
      if Walk(plan.start, plan.root, p[..m]).None? {
        assert p[..m] == rows[k].destination[..m];
        assert NeededDir(plan.start, plan.root, rows, |files|, p[..m]);
      }
    }
  }

  predicate HasPayloads(payloads: map<string, ByteString>, attachment: Attachment) {
    forall f <- attachment.files ::
      HandoffPlan.PayloadKey(attachment.resultId, f.path) in payloads
      && payloads[HandoffPlan.PayloadKey(attachment.resultId, f.path)] == f.content
  }

  /** The files of one bundle. */
  method InstallBundle(w: Workspace, attachment: Attachment, payloads: map<string, ByteString>,
                       ghost start: FS, ghost plan: Plan, ghost all: seq<AttachedFile>, ghost n: nat)
    returns (ok: bool, ghost after: Plan)
    requires w.Valid(start)
    requires n + |attachment.files| <= |all| && all[n..n + |attachment.files|] == attachment.files
    modifies w`fs
    ensures w.Valid(start)
    ensures old(Ground(plan, w.fs)) && plan.root == w.root && Installable(plan.start, plan.root, all) && MadeFor(plan, Rows(all), n)
            && HasPayloads(payloads, attachment) ==>
              ok && Ground(after, w.fs) && after.root == plan.root && after.start == plan.start && MadeFor(after, Rows(all), n + |attachment.files|)
  {
    hide Ground, Walk, MadeFor, Installable, Room, AddedFor, NoClash, Workspace.Valid, Rows, HandoffPlan.PayloadKey;
    after := plan;
    ghost var quiet := Ground(plan, w.fs) && plan.root == w.root && Installable(plan.start, plan.root, all) && MadeFor(plan, Rows(all), n)
      && HasPayloads(payloads, attachment);
    var j := 0;
    while j < |attachment.files|
      invariant 0 <= j <= |attachment.files| && w.Valid(start)
      invariant quiet ==> Ground(after, w.fs) && after.root == plan.root && after.start == plan.start && MadeFor(after, Rows(all), n + j)
    {
      var f := attachment.files[j];
      assert f in attachment.files && f == all[n..n + |attachment.files|][j] == all[n + j];
      var key := HandoffPlan.PayloadKey(attachment.resultId, f.path);
      if key !in payloads {
        return false, after;
      }
      ghost var before := after;
      RowAt(all, n + j);
      if quiet {
        RoomNext(before, all, n + j);
      }
      ok, after := w.InstallOne(Paths.Split(f.path), payloads[key], start, before);
      if !ok {
        return false, after;
      }
      if quiet {
        ghost var mid :| AddedFor(before, mid, Paths.Split(f.path), |Paths.Split(f.path)| - 1)
                         && after == mid.(done := mid.done[Paths.Split(f.path) := payloads[key]]);
        ClashFree(plan, all);
        MadeForCreated(before, mid, after, Rows(all), n + j);
        SameStart(before, mid, Paths.Split(f.path));
      }
      j := j + 1;
    }
    ok := true;
  }

  lemma SameStart(plan: Plan, mid: Plan, p: Path)
    requires p != [] && AddedFor(plan, mid, p, |p| - 1)
    ensures mid.start == plan.start && mid.root == plan.root
  {
  }

  lemma ClashFree(plan: Plan, files: seq<AttachedFile>)
    requires Installable(plan.start, plan.root, files)
    ensures NoClash(Rows(files))
  {
  }

  lemma RowAt(files: seq<AttachedFile>, k: nat)
    requires k < |files|
    ensures Rows(files)[k] == FileRow(Paths.Split(files[k].path), Create, files[k].content, None, Pending)
  {
  }

  /** `_verify_installed`: it succeeds only if every file is at its destination with its bytes. */
  method VerifyInstalled(w: Workspace, installed: seq<AttachedFile>, ghost start: FS, ghost plan: Plan) returns (ok: bool)
    requires w.Valid(start)
    modifies w`fs
    ensures w.Valid(start)
    ensures ok ==> forall f <- installed :: ViewAt(w.fs, w.root, Paths.Split(f.path)) == Contents(f.content)
    ensures old(Ground(plan, w.fs)) && plan.root == w.root && Installable(plan.start, plan.root, installed)
            && MadeFor(plan, Rows(installed), |installed|) ==>
              ok && w.fs == old(w.fs)
  {
    hide Ground, Walk, MadeFor, Installable, Arrived, Workspace.Valid, Rows, Kept, WellFormed, Paths.Split;
    ghost var quiet := Ground(plan, w.fs) && plan.root == w.root && Installable(plan.start, plan.root, installed)
      && MadeFor(plan, Rows(installed), |installed|);
    var k := 0;
    while k < |installed|
      invariant 0 <= k <= |installed| && w.Valid(start)
      invariant quiet ==> w.fs == old(w.fs)
      invariant forall f <- installed[..k] :: ViewAt(w.fs, w.root, Paths.Split(f.path)) == Contents(f.content)
    {
      RowAt(installed, k);
      ghost var was := w.fs;
      w.Formed(start);
      if quiet {
        AllArrived(plan, installed, k);
      }
      ok := w.VerifyOne(Paths.Split(installed[k].path), installed[k].content, start, plan);
      if !ok {
        return;
      }
      forall f <- installed[..k]
        ensures ViewAt(w.fs, w.root, Paths.Split(f.path)) == Contents(f.content)
      {
        ViewStays(was, w.fs, w.root, Paths.Split(f.path));
      }
      assert installed[..k + 1] == installed[..k] + [installed[k]];
      k := k + 1;
    }
    assert installed[..|installed|] == installed;
    ok := true;
  }

  /** `install_attachments`: whatever happens, nothing that was in the clone is touched; if it succeeds, every file is in place with its bytes; and if the plan is acceptable, the paths canonical, and every destination free, it succeeds and leaves the old tree, every file with its bytes, the directories missing on the way to them, and nothing else. */
  method InstallAttachments(w: Workspace, attachments: seq<Attachment>, payloads: map<string, ByteString>) returns (ok: bool)
    requires Sound(w.fs, w.root)
    modifies w`fs
    ensures Kept(old(w.fs), w.fs)
    ensures ok ==> HandoffPlan.Acceptable(attachments)
    ensures ok ==> forall f <- HandoffPlan.AllFiles(attachments) :: ViewAt(w.fs, w.root, Paths.Split(f.path)) == Contents(f.content)
    ensures HandoffPlan.Acceptable(attachments) && (forall a <- attachments :: HasPayloads(payloads, a))
            && Installable(old(w.fs), w.root, HandoffPlan.AllFiles(attachments)) ==>
              ok && Complete(old(w.fs), w.fs, w.root, Rows(HandoffPlan.AllFiles(attachments)))
  {
    hide Ground, Walk, MadeFor, Installable, Complete, Rows, HandoffPlan.Acceptable, Sound, Tree, Laid;
    ghost var start, files := w.fs, HandoffPlan.AllFiles(attachments);
    assert Kept(start, start) && WellFormed(start) by {
      Untouched(start, w.root);
    }
    var destinations := HandoffPlan.PlanDestinations(attachments);
    if destinations.Err? {
      return false;
    }
    ghost var quiet := (forall a <- attachments :: HasPayloads(payloads, a)) && Installable(start, w.root, files);
    ghost var plan := Plan(start, w.root, NO_STAGING, {}, map[]);
    if quiet {
      StartsSound(start, w.root, files);
    }
    var i := 0;
    while i < |attachments|
      invariant 0 <= i <= |attachments| && w.Valid(start)
      invariant quiet ==> Ground(plan, w.fs) && plan.root == w.root && plan.start == start
                          && MadeFor(plan, Rows(files), |HandoffPlan.AllFiles(attachments[..i])|)
    {
      ghost var before := HandoffPlan.AllFiles(attachments[..i]);
      HandoffPlan.FilesOfPrefix(attachments, i);
      PartOfAll(attachments, i);
      assert attachments[i] in attachments;
      ok, plan := InstallBundle(w, attachments[i], payloads, start, plan, files, |before|);
      if !ok {
        return;
      }
      i := i + 1;
    }
    assert attachments[..|attachments|] == attachments;
    ghost var installed := w.fs;
    ok := VerifyInstalled(w, HandoffPlan.AllFiles(attachments), start, plan);
    if quiet {
      InstalledComplete(plan, installed, files);
    }
  }

  lemma Untouched(fs: FS, root: Ino)
    requires Sound(fs, root)
    ensures Kept(fs, fs) && WellFormed(fs)
  {
  }

  lemma StartsSound(start: FS, root: Ino, files: seq<AttachedFile>)
    requires Installable(start, root, files)
    ensures var plan := Plan(start, root, NO_STAGING, {}, map[]); Ground(plan, start) && MadeFor(plan, Rows(files), 0)
  {
    LaidAtStart(start, root, NO_STAGING);
    NothingMadeYet(Plan(start, root, NO_STAGING, {}, map[]), Rows(files));
  }

  lemma PartOfAll(attachments: seq<Attachment>, i: nat)
    requires i < |attachments|
    ensures var all, before, mine := HandoffPlan.AllFiles(attachments), HandoffPlan.AllFiles(attachments[..i]), attachments[i].files;
            |before| + |mine| <= |all| && all[|before|..|before| + |mine|] == mine
  {
    HandoffPlan.PrefixOfFiles(attachments, i + 1);
    HandoffPlan.FilesOfPrefix(attachments, i);
  }

  lemma InstalledComplete(plan: Plan, fs: FS, files: seq<AttachedFile>)
    requires Ground(plan, fs) && Installable(plan.start, plan.root, files) && MadeFor(plan, Rows(files), |files|)
    ensures Complete(plan.start, fs, plan.root, Rows(files))
  {
    hide Walk, MadeFor, Complete, Rows;
    LaidIsComplete(plan, fs, Rows(files));
  }

  // ----- The two verdicts together -----

  /** A tree reading says of every path it was asked about whether something is there, and whether it is a directory. */
  ghost predicate Reads(entries: seq<HandoffPlan.TreeEntry>, fs: FS, root: Ino, wanted: set<string>) {
    forall w :: w in wanted ==>
      && ((exists e :: HandoffPlan.LastLine(entries, w, e)) <==> Walk(fs, root, Paths.Split(w)).Some?)
      && forall e :: HandoffPlan.LastLine(entries, w, e) ==> (e.kind == HandoffPlan.TreeKind <==> IsDir(fs, Walk(fs, root, Paths.Split(w)).value))
  }

  lemma ReadByPath(entries: seq<HandoffPlan.TreeEntry>, fs: FS, root: Ino, wanted: set<string>)
    requires Reads(entries, fs, root, wanted)
    ensures var byPath := HandoffPlan.ByPath(entries);
            forall w :: w in wanted ==>
              && (w in byPath <==> Walk(fs, root, Paths.Split(w)).Some?)
              && (w in byPath ==> (byPath[w].kind == HandoffPlan.TreeKind <==> IsDir(fs, Walk(fs, root, Paths.Split(w)).value)))
  {
    hide Walk, Paths.Split, HandoffPlan.ByPath, HandoffPlan.LastLine;
    forall w, e
      ensures HandoffPlan.LastLine(entries, w, e) <==> w in HandoffPlan.ByPath(entries) && HandoffPlan.ByPath(entries)[w] == e
    {
      HandoffPlan.ByPathExact(entries, w, e);
    }
    forall w | w in HandoffPlan.ByPath(entries)
      ensures HandoffPlan.LastLine(entries, w, HandoffPlan.ByPath(entries)[w])
    {
    }
  }

  /** A clone is on one file system. */
  ghost predicate OneDevice(fs: FS, root: Ino) {
    forall p {:trigger Walk(fs, root, p)} :: Walk(fs, root, p).Some? ==> Device(fs, Walk(fs, root, p).value) == Device(fs, root)
  }

  lemma DestinationIsFree(entries: seq<HandoffPlan.TreeEntry>, fs: FS, root: Ino, path: string, wanted: set<string>)
    requires Paths.Canonical(path) && HandoffPlan.FreeIn(HandoffPlan.ByPath(entries), path)
    requires Reads(entries, fs, root, wanted) && path in wanted && Paths.Ancestors(path) <= wanted && OneDevice(fs, root)
    ensures FreeAt(fs, root, Paths.Split(path))
  {
    var parts := Paths.Split(path);
    Paths.NoSlashes(path);
    ReadByPath(entries, fs, root, wanted);
    hide Walk, HandoffPlan.ByPath, Paths.Split, Paths.Canonical, Reads;
    forall m: nat {:trigger parts[..m]} | 0 < m < |parts|
      ensures Walk(fs, root, parts[..m]).None?
              || (IsDir(fs, Walk(fs, root, parts[..m]).value) && Device(fs, Walk(fs, root, parts[..m]).value) == Device(fs, root))
    {
      var a := Paths.Join(parts[..m]);
      assert a in Paths.Ancestors(path);
      Paths.SplitJoin(parts[..m]);
    }
    OrdinaryParts(path);
  }

  lemma OrdinaryParts(path: string)
    requires Paths.Canonical(path)
    ensures Paths.Split(path) != [] && forall n <- Paths.Split(path) :: Paths.Ordinary(n)
  {
  }

  lemma RowsApart(f: AttachedFile, g: AttachedFile, files: seq<AttachedFile>)
    requires CanonicalFiles(files) && HandoffPlan.Separate(files) && HandoffPlan.NoFileIsDirectory(files) && f in files && g in files
    ensures f.path != g.path ==> Paths.Split(f.path) != Paths.Split(g.path)
    ensures forall m: nat :: m < |Paths.Split(g.path)| ==> Paths.Split(f.path) != Paths.Split(g.path)[..m]
  {
    HandoffPlan.CanonicalCompatible(files);
    Paths.AncestorsArePrefixes(f.path, g.path);
    hide Paths.Split, Paths.Ancestors, HandoffPlan.Destination, Paths.Canonical;
    assert HandoffPlan.Destination(f) == Paths.Ok(f.path);
    if Paths.Split(f.path) == Paths.Split(g.path) {
      Paths.SplitInjective(f.path, g.path);
    }
  }

  lemma RowsDoNotClash(files: seq<AttachedFile>)
    requires CanonicalFiles(files) && HandoffPlan.Separate(files) && HandoffPlan.NoFileIsDirectory(files)
    ensures NoClash(Rows(files))
  {
    HandoffPlan.CanonicalCompatible(files);
    var rows := Rows(files);
    hide Paths.Split, HandoffPlan.Destination, Rows, Paths.Ancestors, Paths.Canonical, HandoffPlan.NoFileIsDirectory;
    forall j: nat, k: nat {:trigger rows[j], rows[k]} | j < |files| && k < |files|
      ensures j != k ==> rows[j].destination != rows[k].destination
      ensures forall m: nat :: m < |rows[k].destination| ==> rows[j].destination != rows[k].destination[..m]
    {
      RowAt(files, j);
      RowAt(files, k);
      assert files[j] in files && files[k] in files;
      RowsApart(files[j], files[k], files);
      assert j != k ==> HandoffPlan.Destination(files[j]) != HandoffPlan.Destination(files[k]);
    }
  }

  /** An acceptable selection of canonical paths whose target classification reports nothing can be installed into that tree. */
  lemma AcceptanceIsEnough(attachments: seq<Attachment>, entries: seq<HandoffPlan.TreeEntry>, fs: FS, root: Ino, destinations: set<string>)
    requires HandoffPlan.Acceptable(attachments) && CanonicalFiles(HandoffPlan.AllFiles(attachments))
    requires destinations == set f | f in HandoffPlan.AllFiles(attachments) :: f.path
    requires forall d <- destinations :: HandoffPlan.FreeIn(HandoffPlan.ByPath(entries), d)
    requires Reads(entries, fs, root, HandoffPlan.ObservationPaths(destinations))
    requires Tree(fs, root) && OneDevice(fs, root) && NO_STAGING !in Entries(fs, root)
    ensures Installable(fs, root, HandoffPlan.AllFiles(attachments))
  {
    var files := HandoffPlan.AllFiles(attachments);
    hide Tree, OneDevice, Reads, HandoffPlan.FreeIn, Paths.Split, Paths.Canonical, HandoffPlan.AllFiles, Paths.Ancestors, FreeAt;
    RowsDoNotClash(files);
    forall k: nat | k < |files|
      ensures FreeAt(fs, root, Rows(files)[k].destination)
    {
      var path := files[k].path;
      assert files[k] in files && path in destinations;
      RowAt(files, k);
      DestinationIsFree(entries, fs, root, path, HandoffPlan.ObservationPaths(destinations));
    }
  }

  /** The paths the target is asked about, each once. */
  method RequestedPaths(attachments: seq<Attachment>) returns (destinations: seq<string>)
    ensures forall i: nat, j: nat :: i < j < |destinations| ==> destinations[i] != destinations[j]
    ensures forall p :: p in destinations <==> exists f <- HandoffPlan.AllFiles(attachments) :: f.path == p
  {
    var files := HandoffPlan.AllFiles(attachments);
    destinations := [];
    var k := 0;
    while k < |files|
      invariant 0 <= k <= |files|
      invariant forall i: nat, j: nat :: i < j < |destinations| ==> destinations[i] != destinations[j]
      invariant forall p :: p in destinations <==> exists f <- files[..k] :: f.path == p
    {
      assert files[..k + 1] == files[..k] + [files[k]] && files[k] in files[..k + 1];
      if files[k].path !in destinations {
        destinations := destinations + [files[k].path];
      }
      k := k + 1;
    }
    assert files[..|files|] == files;
  }

  /** What the clone and the retained store must still be when an accepted launch comes to install: the tree that was read, and the bytes that were captured. */
  ghost predicate AsReviewed(fs: FS, root: Ino, attachments: seq<Attachment>, payloads: map<string, ByteString>, entries: seq<HandoffPlan.TreeEntry>) {
    var files := HandoffPlan.AllFiles(attachments);
    && CanonicalFiles(files) && (forall a <- attachments :: HasPayloads(payloads, a))
    && Tree(fs, root) && OneDevice(fs, root) && NO_STAGING !in Entries(fs, root)
    && Reads(entries, fs, root, HandoffPlan.ObservationPaths(set f <- files :: f.path))
  }

  lemma ReviewIsEnough(fs: FS, root: Ino, attachments: seq<Attachment>, payloads: map<string, ByteString>, entries: seq<HandoffPlan.TreeEntry>)
    requires AsReviewed(fs, root, attachments, payloads, entries) && HandoffPlan.Acceptable(attachments)
    requires forall f <- HandoffPlan.AllFiles(attachments) :: HandoffPlan.FreeIn(HandoffPlan.ByPath(entries), f.path)
    ensures Installable(fs, root, HandoffPlan.AllFiles(attachments))
  {
    hide HandoffPlan.Acceptable, HandoffPlan.FreeIn, Reads, Tree, OneDevice, CanonicalFiles, HandoffPlan.AllFiles;
    var destinations := set f <- HandoffPlan.AllFiles(attachments) :: f.path;
    AcceptanceIsEnough(attachments, entries, fs, root, destinations);
  }

  /** A launch with attachments, from the reading of its target to the files in the clone: it is accepted exactly if the selection is acceptable and every destination free, a refused one writes nothing, and an accepted one that finds what was reviewed installs everything and nothing else. */
  method LaunchWithAttachments(w: Workspace, attachments: seq<Attachment>, payloads: map<string, ByteString>, entries: seq<HandoffPlan.TreeEntry>)
    returns (accepted: bool, installed: bool)
    requires Sound(w.fs, w.root)
    modifies w`fs
    ensures accepted <==> HandoffPlan.Acceptable(attachments)
                          && forall f <- HandoffPlan.AllFiles(attachments) :: HandoffPlan.Vacant(entries, f.path)
    ensures !accepted ==> !installed && w.fs == old(w.fs)
    ensures Kept(old(w.fs), w.fs)
    ensures installed ==> forall f <- HandoffPlan.AllFiles(attachments) :: ViewAt(w.fs, w.root, Paths.Split(f.path)) == Contents(f.content)
    ensures accepted && old(AsReviewed(w.fs, w.root, attachments, payloads, entries)) ==>
              installed && Complete(old(w.fs), w.fs, w.root, Rows(HandoffPlan.AllFiles(attachments)))
  {
    hide HandoffPlan.FreeIn, HandoffPlan.Vacant, HandoffPlan.ByPath, HandoffPlan.AllFiles, HandoffPlan.Acceptable, Sound, Complete, Rows, Installable,
         Paths.Split, ViewAt, Reads, Tree, OneDevice, CanonicalFiles;
    Untouched(w.fs, w.root);
    ghost var start := w.fs;
    var destinations := RequestedPaths(attachments);
    var conflicts := HandoffPlan.ClassifyTargetEntries(destinations, entries);
    var plan := HandoffPlan.PlanDestinations(attachments);
    accepted, installed := plan.Ok? && conflicts == [], false;
    if accepted {
      if AsReviewed(start, w.root, attachments, payloads, entries) {
        forall f <- HandoffPlan.AllFiles(attachments)
          ensures HandoffPlan.FreeIn(HandoffPlan.ByPath(entries), f.path)
        {
          HandoffPlan.VacantExact(entries, f.path);
        }
        ReviewIsEnough(start, w.root, attachments, payloads, entries);
      }
      installed := InstallAttachments(w, attachments, payloads);
    }
  }
}
