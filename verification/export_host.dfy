/** The host an export runs on: one system call or journal write at a time, with everybody else in between. */
module ExportHost {
  import opened Bytes
  import opened Filesystem
  import opened ExportJournal
  import opened ExportSafety
  import opened ExportTree
  import opened ExportCourse
  import opened Wrappers
  import Paths

  /** What happens just before a call of the daemon: others change the file system or what the registered checkout path leads to, the daemon dies, or the call fails. A journal write that an index refuses is a call that fails. */
  datatype Turn = Others(next: FS, checkout: Option<Ino>) | Crash | Fault

  datatype Raised = NotRaised | ExportRefused | OsFailed

  // ----- Which changes by others are possible -----

  predicate HasName(fs: FS, i: Ino) {
    exists d <- fs.nodes.Keys :: exists n <- Entries(fs, d).Keys :: Entries(fs, d)[n] == i
  }

  predicate InDirectory(fs: FS, d: Ino, i: Ino) {
    exists n <- Entries(fs, d).Keys :: Entries(fs, d)[n] == i
  }

  predicate EntryAllowed(before: FS, after: FS, ours: Option<Ino>, mine: set<Ino>, d: Ino, n: Name, i: Ino) {
    && i < after.next && (i < before.next ==> HasName(before, i))
    && (ours.Some? && (d == ours.value || i == ours.value || (i in mine && InDirectory(before, ours.value, i))) ==> Bound(before, d, n, i))
    && (ours == Some(d) && i in mine && i in before.nodes ==> SameContent(before, after, i))
  }

  /** What an entry for a directory must be like while the staging directory has not been opened. */
  predicate OnlyEntry(fs: FS, d: Ino, n: Name, i: Ino) {
    i != d && (IsDir(fs, i) ==> forall e <- fs.nodes.Keys :: forall m <- Entries(fs, e).Keys :: Entries(fs, e)[m] == i ==> e == d && m == n)
  }

  predicate Possible(before: FS, after: FS, ours: Option<Ino>, mine: set<Ino>) {
    && before.next <= after.next
    && (forall i <- after.nodes.Keys :: i < after.next && (i < before.next ==> i in before.nodes))
    && (forall d <- after.nodes.Keys :: forall n <- Entries(after, d).Keys ::
          && EntryAllowed(before, after, ours, mine, d, n, Entries(after, d)[n])
          && (ours.None? ==> OnlyEntry(after, d, n, Entries(after, d)[n])))
  }

  lemma PossibleMeans(before: FS, after: FS, ours: Option<Ino>, mine: set<Ino>)
    requires Possible(before, after, ours, mine)
    ensures OthersMay(before, after, ours, mine)
  {
    forall d: Ino, n: Name, i: Ino | Bound(after, d, n, i)
      ensures EntryAllowed(before, after, ours, mine, d, n, i) && (ours.None? ==> OnlyEntry(after, d, n, i))
    {
      assert d in after.nodes.Keys && n in Entries(after, d).Keys;
    }
    forall d: Ino, n: Name, i: Ino | Bound(after, d, n, i) && i < before.next
      ensures exists e: Ino, m: Name :: Bound(before, e, m, i)
    {
      assert EntryAllowed(before, after, ours, mine, d, n, i);
      var e :| e in before.nodes.Keys && exists m <- Entries(before, e).Keys :: Entries(before, e)[m] == i;
      var m :| m in Entries(before, e).Keys && Entries(before, e)[m] == i;
      assert Bound(before, e, m, i);
    }
    if ours.Some? {
      forall d: Ino, n: Name, i: Ino | Bound(after, d, n, i) && (i == ours.value || Inside(before, ours.value, mine, i))
        ensures Bound(before, d, n, i)
      {
        assert EntryAllowed(before, after, ours, mine, d, n, i);
        if m: Name :| Bound(before, ours.value, m, i) {
          assert m in Entries(before, ours.value).Keys;
        }
      }
      forall n: Name, i: Ino | Bound(after, ours.value, n, i) && i in mine && i in before.nodes
        ensures SameContent(before, after, i)
      {
        assert EntryAllowed(before, after, ours, mine, ours.value, n, i);
      }
    } else {
      forall d: Ino, n: Name, e: Ino, m: Name, i: Ino | Bound(after, d, n, i) && Bound(after, e, m, i) && IsDir(after, i)
        ensures d == e && n == m
      {
        assert OnlyEntry(after, d, n, i) && e in after.nodes.Keys && m in Entries(after, e).Keys;
      }
    }
  }

  /** The checkable form leaves nothing out: whatever others may do is possible. */
  lemma AllowedIsPossible(before: FS, after: FS, ours: Option<Ino>, mine: set<Ino>)
    requires OthersMay(before, after, ours, mine)
    ensures Possible(before, after, ours, mine)
  {
    forall d, n | d in after.nodes.Keys && n in Entries(after, d).Keys
      ensures EntryAllowed(before, after, ours, mine, d, n, Entries(after, d)[n])
      ensures ours.None? ==> OnlyEntry(after, d, n, Entries(after, d)[n])
    {
      var i := Entries(after, d)[n];
      assert Bound(after, d, n, i);
      if i < before.next {
        var e: Ino, m: Name :| Bound(before, e, m, i);
        assert e in before.nodes.Keys && m in Entries(before, e).Keys;
      }
      if ours.Some? && InDirectory(before, ours.value, i) {
        var m :| m in Entries(before, ours.value).Keys && Entries(before, ours.value)[m] == i;
        assert Bound(before, ours.value, m, i);
      }
      if ours.None? && IsDir(after, i) {
        forall e, m | e in after.nodes.Keys && m in Entries(after, e).Keys && Entries(after, e)[m] == i
          ensures e == d && m == n
        {
          assert Bound(after, e, m, i);
        }
      }
    }
  }

  lemma NoChangeAllowed(w: World)
    requires Safe(w)
    ensures OthersMay(w.fs, w.fs, w.ours, w.mine)
  {
  }

  // ----- A staged file on its way to the journal -----

  /** Inode `i`, not journalled yet, waits under the name of file `k` and nowhere else; if it is still there it holds `data`. */
  ghost predicate Waiting(w: World, i: Ino, k: nat, data: ByteString) {
    && w.ours.Some? && i in w.mine && i < w.fs.next && i != w.ours.value
    && (forall j: nat :: Staged(w, j) ==> StagedIno(w, j) != i)
    && (forall d: Ino, n: Name :: Bound(w.fs, d, n, i) ==> d == w.ours.value && n == SeqName(k))
    && (forall j: Ino :: Bound(w.fs, w.ours.value, SeqName(k), j) ==>
          j == i && i in w.fs.nodes && w.fs.nodes[i].File? && w.fs.nodes[i].data == data)
  }

  lemma WaitingKept(w: World, after: FS, i: Ino, k: nat, data: ByteString)
    requires Waiting(w, i, k, data) && OthersMay(w.fs, after, w.ours, w.mine)
    ensures Waiting(w.(fs := after), i, k, data)
  {
    hide Bound, SeqName;
    var v := w.(fs := after);
    assert forall j: nat :: Staged(v, j) == Staged(w, j) && StagedIno(v, j) == StagedIno(w, j);
    forall d: Ino, n: Name | Bound(after, d, n, i)
      ensures d == w.ours.value && n == SeqName(k)
    {
      var e: Ino, m: Name :| Bound(w.fs, e, m, i);
      assert Bound(w.fs, w.ours.value, SeqName(k), i);
      assert Inside(w.fs, w.ours.value, w.mine, i);
    }
    forall j: Ino | Bound(after, w.ours.value, SeqName(k), j)
      ensures j == i && SameContent(w.fs, after, i)
    {
      assert Bound(w.fs, w.ours.value, SeqName(k), j);
    }
  }

  lemma NewFileWaits(before: World, after: World, n: Name, node: Node)
    requires Safe(before) && before.ours.Some? && IsDir(before.fs, before.ours.value) && n !in Entries(before.fs, before.ours.value)
    requires node.File? && node.data == []
    requires after == before.(fs := AddNode(before.fs, before.ours.value, n, node), mine := before.mine + {before.fs.next})
    ensures forall k: nat :: n == SeqName(k) ==> Waiting(after, before.fs.next, k, [])
  {
    var s, i := before.ours.value, before.fs.next;
    AddNodeNames(before.fs, s, n, node);
    NoEntry(before.fs, s, n);
    hide Bound, SeqName, AddNode;
    assert forall j: nat :: Staged(after, j) == Staged(before, j) && StagedIno(after, j) == StagedIno(before, j);
    assert forall d: Ino, m: Name :: Bound(after.fs, d, m, i) ==> d == s && m == n;
  }

  lemma WaitingFound(w: World, i: Ino, k: nat, data: ByteString, found: Ino)
    requires Waiting(w, i, k, data) && Bound(w.fs, w.ours.value, SeqName(k), found)
    ensures found == i && i in w.fs.nodes && w.fs.nodes[i].File? && w.fs.nodes[i].data == data
  {
  }

  lemma WrittenWaits(w: World, i: Ino, k: nat, data: ByteString)
    requires WellFormed(w.fs) && Waiting(w, i, k, []) && WriteFile(w.fs, i, data).Ok?
    ensures Waiting(w.(fs := WriteFile(w.fs, i, data).value), i, k, data)
  {
    hide Bound, SeqName, WriteFile;
    var v := w.(fs := WriteFile(w.fs, i, data).value);
    WriteNames(w.fs, i, data);
    assert forall j: nat :: Staged(v, j) == Staged(w, j) && StagedIno(v, j) == StagedIno(w, j);
  }

  datatype Taken = Taken(before: World, after: World)

  ghost predicate CreateOnlyStep(s: Taken) {
    CreateOnly(s.before.fs, s.after.fs, s.after.ours, s.after.mine)
  }

  lemma OwnTakesNothing(w: World, v: World)
    requires Own(w)
    ensures !TakesEntry(w, v)
  {
    if TakesEntry(w, v) {
      var n: Name :| n in Entries(w.fs, w.ours.value) && Entries(w.fs, w.ours.value)[n] !in w.mine;
      assert Bound(w.fs, w.ours.value, n, Entries(w.fs, w.ours.value)[n]);
    }
  }

  /** Directory `d` is where the approval lets a file with destination `p` go: the root itself, or the very directory the preview saw. Of a directory that was absent at the preview nothing is known but its path. */
  predicate RightPlace(row: Export, p: Path, d: Ino) {
    if |p| <= 1 then d == row.root
    else WasPresent(row.approved, ParentOf(p)) ==> d == row.approved[ParentOf(p)].ino
  }

  /** Every file this export moved went where the approval lets it go. */
  ghost predicate Aimed(row: Export, moved: map<nat, Move>) {
    forall k: nat :: k in moved && k < |row.files| ==> RightPlace(row, row.files[k].destination, moved[k].dir)
  }

  /** Journalling outcomes does not matter to where files went, or to what is in the staging directory. */
  lemma JournalAimed(w: World, row: Export)
    requires row.root == w.row.root && row.approved == w.row.approved && |row.files| == |w.row.files|
    requires forall k :: 0 <= k < |row.files| ==> row.files[k].destination == w.row.files[k].destination
    ensures Aimed(w.row, w.moved) ==> Aimed(row, w.moved)
    ensures Own(w) ==> Own(w.(row := row))
  {
  }

  class Host {
    var fs: FS
    /** What the registered checkout path opens as an ordinary directory. */
    var checkout: Option<Ino>
    var turns: seq<Turn>
    /** Once the daemon is dead none of its calls has an effect; that is how a crash at any point is modelled. */
    var alive: bool
    const supportsNoReplace: bool
    var row: Export
    /** The directory this export opened as its staging directory, and the inodes it made. */
    var ours: Option<Ino>
    var mine: set<Ino>
    /** Unless that directory, as it was opened, was not the one this export made, or held something else already. */
    ghost var intact: bool
    ghost var moved: map<nat, Move>
    ghost var steps: seq<Taken>

    /** A daemon about to work on a row that has been admitted and not started. */
    constructor (fs: FS, checkout: Option<Ino>, turns: seq<Turn>, supportsNoReplace: bool, row: Export)
      requires WellFormed(fs) && DirectoriesOnce(fs) && RowOk(row) && row.root < fs.next
      requires forall k: nat :: k < |row.files| ==> row.files[k].staged.None? && row.files[k].outcome == Pending
      ensures Valid() && ours.None? && steps == [] && alive && mine == {}
      ensures this.fs == fs && this.checkout == checkout && this.turns == turns && this.supportsNoReplace == supportsNoReplace && this.row == row
    {
      this.fs, this.checkout, this.turns, this.supportsNoReplace, this.row := fs, checkout, turns, supportsNoReplace, row;
      alive, ours, mine, intact, moved, steps := true, None, {}, true, map[], [];
    }

    ghost function World(): World
      reads this
    {
      ExportSafety.World.World(fs, row, ours, mine, moved)
    }

    /** The invariant holds, every move went where it was approved, and every step so far was one of this export's own. */
    ghost predicate Valid()
      reads this
    {
      && Safe(World()) && Aimed(row, moved) && (ours.None? ==> intact) && (intact ==> Own(World()))
      && forall k :: 0 <= k < |steps| ==>
           OwnStep(steps[k].before, steps[k].after) && (intact ==> !TakesEntry(steps[k].before, steps[k].after))
    }

    /** Nobody interferes, and the installation stands where `plan` says. */
    ghost predicate OnCourse(plan: Plan, extra: map<Name, Ino>)
      reads this
    {
      Quiet() && supportsNoReplace && checkout == Some(row.root) && Course(World(), plan, extra)
    }

    /** Nobody interferes, and nothing has been installed yet. */
    ghost predicate Undisturbed(plan: Plan)
      reads this
    {
      && Quiet() && supportsNoReplace && checkout == Some(row.root) && IsDir(fs, row.root)
      && plan.root == row.root && plan.staging == row.stagingName
    }

    lemma CourseRoot(plan: Plan)
      requires OnCourse(plan, map[])
      ensures plan.root == row.root && plan.staging == row.stagingName && At(plan, fs, [], row.root) && Device(fs, row.root) == Device(plan.start, plan.root)
    {
    }

    lemma CourseKept(w: ExportSafety.World, plan: Plan)
      requires Course(w, plan, map[]) && Quiet() && supportsNoReplace && checkout == Some(row.root)
      requires fs == w.fs && ours == w.ours && moved == w.moved && row.files == w.row.files
      requires row.root == w.row.root && row.stagingName == w.row.stagingName
      ensures OnCourse(plan, map[])
    {
      CourseJournal(w, World(), plan);
    }

    lemma NothingMovedYet()
      requires Valid() && ours.None?
      ensures moved == map[]
    {
    }

    /** The staging directory is reached by its own name. */
    lemma CourseStaging(plan: Plan)
      requires Course(World(), plan, map[])
      ensures Bound(fs, row.root, row.stagingName, ours.value)
    {
    }

    /** Destinations are made of ordinary names, and the root is not this export's staging directory. */
    lemma Names()
      requires Valid()
      ensures Safe(World())
      ensures fs.next !in mine
      ensures ours != Some(row.root) && row.stagingName != "" && row.stagingName[0] == '.'
      ensures forall k: nat :: k < |row.files| ==>
                row.files[k].destination != [] && forall n <- row.files[k].destination :: Paths.Ordinary(n)
    {
    }

    /** A staged inode found at a name outside the staging directory was moved by this export. */
    lemma FoundIsMoved(k: nat, d: Ino, n: Name)
      requires Valid() && k < |row.files| && row.files[k].staged.Some? && Some(d) != ours
      requires Bound(fs, d, n, row.files[k].staged.value)
      ensures k in moved
    {
      assert Staged(World(), k);
      FoundMeansMoved(World(), k, d, n);
    }

    /** What the invariant says of the journal and of the history. */
    lemma Meaning()
      requires Valid()
      ensures forall k: nat :: k < |row.files| && row.files[k].outcome == Created ==>
                && k in moved && moved[k].data == row.files[k].expected
                && Some(moved[k].ino) == row.files[k].staged
                && moved[k].name == Base(row.files[k].destination)
      ensures forall k: nat :: k in moved ==> k < |row.files| && RightPlace(row, row.files[k].destination, moved[k].dir)
      ensures forall k: nat :: k < |row.files| && row.files[k].staged.None? ==> k !in moved
      ensures forall s <- steps :: CreateOnlyStep(s) <==> !TakesEntry(s.before, s.after) && !TakesDirectory(s.before, s.after)
      ensures intact ==> forall s <- steps :: !TakesEntry(s.before, s.after)
    {
      hide CreateOnly, TakesEntry, TakesDirectory;
      assert forall k: nat :: k in moved ==> Staged(World(), k);
      forall s <- steps
        ensures CreateOnlyStep(s) <==> !TakesEntry(s.before, s.after) && !TakesDirectory(s.before, s.after)
        ensures intact ==> !TakesEntry(s.before, s.after)
      {
        assert OwnStep(s.before, s.after);
        StepLimit(s.before, s.after);
      }
    }

    /** Nobody interferes from here on. */
    ghost predicate Quiet()
      reads this
    {
      turns == [] && alive
    }

    /** The moment before a call. False: the call has no effect. */
    method NextTurn() returns (ok: bool)
      requires Valid()
      modifies this`fs, this`checkout, this`turns, this`alive
      ensures Valid() && OthersMay(old(fs), fs, ours, mine)
      ensures old(Quiet()) ==> ok && Quiet() && fs == old(fs) && checkout == old(checkout)
      ensures |turns| <= |old(turns)|
    {
      if turns == [] {
        return alive;
      }
      var turn := turns[0];
      turns := turns[1..];
      match turn
      case Others(next, path) =>
        if Possible(fs, next, ours, mine) {
          PossibleMeans(fs, next, ours, mine);
          OthersKeepSafe(World(), next);
          fs := next;
        }
        checkout := path;
        ok := alive;
      case Crash =>
        alive := false;
        ok := false;
      case Fault =>
        ok := false;
    }

    // ----- Calls that change the checkout -----

    /** Creates a directory under the staging name. */
    method MakeStaging() returns (r: Result<()>)
      requires Valid() && ours.None?
      modifies `fs, `checkout, `turns, `alive, `mine, `steps
      ensures Valid()
      ensures old(Quiet()) ==> Quiet() && checkout == old(checkout)
      ensures old(Quiet()) ==> match Mkdir(old(fs), row.root, row.stagingName)
                               case Ok(after) => r == Ok(()) && fs == after && mine == old(mine) + {old(fs).next}
                               case Err(e) => r == Err(e) && fs == old(fs)
    {
      hide CreateOnly, OthersMay;
      var ok := NextTurn();
      if !ok {
        return Err(Other);
      }
      match Mkdir(fs, row.root, row.stagingName)
      case Err(e) => r := Err(e);
      case Ok(after) =>
        MakeStagingSafe(World());
        ghost var before := World();
        r := Ok(());
        mine := mine + {fs.next};
        fs := after;
        OwnTakesNothing(before, World());
        steps := steps + [Taken(before, World())];
    }

    /** Opens the directory that the staging name leads to now, whichever it is, for staging. */
    method OpenStaging() returns (r: Result<Ino>)
      requires Valid() && ours.None?
      modifies `fs, `checkout, `turns, `alive, `ours, `intact
      ensures Valid() && ours == (if r.Ok? then Some(r.value) else None)
      ensures r.Ok? ==> (intact <==> r.value in mine && forall n: Name, i: Ino :: Bound(fs, r.value, n, i) ==> i in mine)
      ensures old(Quiet()) ==> Quiet() && fs == old(fs) && checkout == old(checkout) && r == OpenDir(fs, row.root, row.stagingName)
    {
      hide OthersMay, OwnStep, TakesEntry, SeqName;
      var ok := NextTurn();
      if !ok {
        return Err(Other);
      }
      r := OpenDir(fs, row.root, row.stagingName);
      if r.Ok? {
        OpenStagingSafe(World(), r.value);
        ours := Some(r.value);
        intact := Own(World());
      }
    }

    /** Creates a directory on the way to a destination. */
    method MakeDirectory(d: Ino, n: Name) returns (r: Result<()>)
      requires Valid() && ours.Some? && d != ours.value && Paths.Ordinary(n)
      modifies `fs, `checkout, `turns, `alive, `mine, `steps
      ensures Valid() && (r.Err? <==> mine == old(mine))
      ensures old(Quiet()) ==> Quiet() && checkout == old(checkout)
      ensures old(Quiet()) ==> match Mkdir(old(fs), d, n)
                               case Ok(after) => r == Ok(()) && fs == after
                               case Err(e) => r == Err(e) && fs == old(fs)
    {
      hide Safe, CreateOnly, OthersMay, AddNode;
      var ok := NextTurn();
      if !ok {
        return Err(Other);
      }
      match Mkdir(fs, d, n)
      case Err(e) => r := Err(e);
      case Ok(after) =>
        Names();
        AddSafe(World(), d, n, Dir(Device(fs, d), map[]));
        ghost var before := World();
        mine := mine + {fs.next};
        fs := after;
        if intact {
          OwnTakesNothing(before, World());
        }
        steps := steps + [Taken(before, World())];
        r := Ok(());
    }

    /** Creates an empty file in the staging directory, exclusively. */
    method CreateStaged(n: Name) returns (r: Result<Ino>)
      requires Valid() && ours.Some?
      requires forall k: nat :: Staged(World(), k) ==> n != SeqName(k)
      modifies `fs, `checkout, `turns, `alive, `mine, `steps
      ensures Valid()
      ensures r.Ok? ==> forall k: nat :: n == SeqName(k) ==> Waiting(World(), r.value, k, [])
      ensures old(Quiet()) ==> Quiet() && checkout == old(checkout)
      ensures old(Quiet()) ==> match CreateFile(old(fs), ours.value, n)
                               case Ok(after) => r == Ok(old(fs).next) && fs == after
                               case Err(e) => r == Err(e) && fs == old(fs)
    {
      hide Safe, CreateOnly, SeqName, OthersMay, AddNode;
      var ok := NextTurn();
      if !ok {
        return Err(Other);
      }
      match CreateFile(fs, ours.value, n)
      case Err(e) => r := Err(e);
      case Ok(after) =>
        var node := File(Device(fs, ours.value), [], 1);
        Names();
        AddSafe(World(), ours.value, n, node);
        ghost var before := World();
        r := Ok(fs.next);
        mine := mine + {fs.next};
        fs := after;
        if intact {
          OwnTakesNothing(before, World());
        }
        steps := steps + [Taken(before, World())];
        NewFileWaits(before, World(), n, node);
    }

    /** Writes the whole content of a file just created in the staging directory. */
    method WriteStaged(i: Ino, k: nat, data: ByteString) returns (r: Result<()>)
      requires Valid() && Waiting(World(), i, k, [])
      modifies `fs, `checkout, `turns, `alive, `steps
      ensures Valid()
      ensures r.Ok? ==> Waiting(World(), i, k, data)
      ensures old(Quiet()) ==> Quiet() && checkout == old(checkout)
      ensures old(Quiet()) ==> match WriteFile(old(fs), i, data)
                               case Ok(after) => r == Ok(()) && fs == after
                               case Err(e) => r == Err(e) && fs == old(fs)
    {
      hide Safe, CreateOnly, SeqName, OthersMay, WriteFile;
      ghost var start := World();
      var ok := NextTurn();
      WaitingKept(start, fs, i, k, []);
      if !ok {
        return Err(Other);
      }
      match WriteFile(fs, i, data)
      case Err(e) => r := Err(e);
      case Ok(after) =>
        WriteSafe(World(), i, data);
        ghost var before := World();
        fs := after;
        if intact {
          OwnTakesNothing(before, World());
        }
        steps := steps + [Taken(before, World())];
        WrittenWaits(before, i, k, data);
        r := Ok(());
    }

    /** The staged file is moved into directory `d` without replacing anything. */
    method MoveIntoPlace(k: nat, d: Ino) returns (r: Result<()>)
      requires Valid() && ours.Some? && Staged(World(), k) && d != ours.value
      requires RightPlace(row, row.files[k].destination, d)
      modifies `fs, `checkout, `turns, `alive, `moved, `steps
      ensures Valid()
      ensures r.Ok? ==> k in moved && moved.Keys == old(moved).Keys + {k}
      ensures !r.Ok? ==> moved == old(moved)
      ensures old(Quiet()) ==> Quiet() && checkout == old(checkout)
      ensures old(Quiet()) && supportsNoReplace ==>
                match RenameNoReplace(old(fs), ours.value, SeqName(k), d, Base(row.files[k].destination))
                case Ok(after) => r == Ok(()) && fs == after
                case Err(e) => r == Err(e) && fs == old(fs)
    {
      hide Safe, CreateOnly, RenameNoReplace, SeqName, OthersMay;
      var ok := NextTurn();
      if !ok {
        return Err(Other);
      }
      if !supportsNoReplace {
        return Err(Unsupported);
      }
      match RenameNoReplace(fs, ours.value, SeqName(k), d, Base(row.files[k].destination))
      case Err(e) => r := Err(e);
      case Ok(after) =>
        MoveSafe(World(), k, d);
        ghost var before := World();
        moved := moved[k := Move(StagedIno(before, k), d, Base(row.files[k].destination), row.files[k].expected)];
        fs := after;
        if intact {
          OwnTakesNothing(before, World());
        }
        steps := steps + [Taken(before, World())];
        r := Ok(());
    }

    /** Renames the probe within the staging directory. */
    method MoveProbe(from: Name, to: Name) returns (r: Result<()>)
      requires Valid() && ours.Some?
      requires forall k: nat :: from != SeqName(k) && to != SeqName(k)
      modifies `fs, `checkout, `turns, `alive, `steps
      ensures Valid()
      ensures !supportsNoReplace ==> r.Err?
      ensures old(Quiet()) ==> Quiet() && checkout == old(checkout)
      ensures old(Quiet()) && supportsNoReplace ==>
                match RenameNoReplace(old(fs), ours.value, from, ours.value, to)
                case Ok(after) => r == Ok(()) && fs == after
                case Err(e) => r == Err(e) && fs == old(fs)
    {
      hide Safe, CreateOnly, RenameNoReplace, SeqName, OthersMay;
      var ok := NextTurn();
      if !ok {
        return Err(Other);
      }
      if !supportsNoReplace {
        return Err(Unsupported);
      }
      match RenameNoReplace(fs, ours.value, from, ours.value, to)
      case Err(e) => r := Err(e);
      case Ok(after) =>
        ProbeMoveSafe(World(), from, to);
        ghost var before := World();
        fs := after;
        if intact {
          OwnTakesNothing(before, World());
        }
        steps := steps + [Taken(before, World())];
        r := Ok(());
    }

    /** Removes one name from the staging directory. */
    method UnlinkStaged(n: Name) returns (r: Result<()>)
      requires Valid() && ours.Some?
      modifies `fs, `checkout, `turns, `alive, `steps
      ensures Valid()
      ensures old(Quiet()) ==> Quiet() && checkout == old(checkout)
      ensures old(Quiet()) ==> match Unlink(old(fs), ours.value, n)
                               case Ok(after) => r == Ok(()) && fs == after
                               case Err(e) => r == Err(e) && fs == old(fs)
    {
      hide Safe, CreateOnly, Unlink, OthersMay;
      var ok := NextTurn();
      if !ok {
        return Err(Other);
      }
      match Unlink(fs, ours.value, n)
      case Err(e) => r := Err(e);
      case Ok(after) =>
        UnlinkInStagingSafe(World(), n);
        ghost var before := World();
        fs := after;
        if intact {
          OwnTakesNothing(before, World());
        }
        steps := steps + [Taken(before, World())];
        r := Ok(());
    }

    /** Removes the staging directory by its name, if it is empty. */
    method RemoveStaging() returns (r: Result<()>)
      requires Valid() && ours.Some?
      modifies `fs, `checkout, `turns, `alive, `steps
      ensures Valid()
      ensures old(Quiet()) ==> Quiet() && checkout == old(checkout)
      ensures old(Quiet()) ==> match Rmdir(old(fs), row.root, row.stagingName)
                               case Ok(after) => r == Ok(()) && fs == after
                               case Err(e) => r == Err(e) && fs == old(fs)
    {
      hide Safe, CreateOnly, Rmdir, OthersMay;
      var ok := NextTurn();
      if !ok {
        return Err(Other);
      }
      match Rmdir(fs, row.root, row.stagingName)
      case Err(e) => r := Err(e);
      case Ok(after) =>
        RemoveStagingSafe(World());
        ghost var before := World();
        fs := after;
        if intact {
          OwnTakesNothing(before, World());
        }
        steps := steps + [Taken(before, World())];
        r := Ok(());
    }

    // ----- Calls that only look -----

    /** Reopens the approved root: whatever the registered path leads to must still be that directory. */
    method ReopenRoot() returns (r: Result<Ino>)
      requires Valid()
      modifies `fs, `checkout, `turns, `alive
      ensures Valid() && (r.Ok? ==> r.value == row.root) && OthersMay(old(fs), fs, ours, mine)
      ensures old(Quiet()) ==> Quiet() && fs == old(fs) && checkout == old(checkout)
      ensures old(Quiet()) ==> r == if checkout == Some(row.root) then Ok(row.root) else Err(Other)
    {
      var ok := NextTurn();
      r := if ok && checkout == Some(row.root) then Ok(row.root) else Err(Other);
    }

    /** One directory component: opened without following links, on the root's file system, and no nested repository. Err(Missing) is the only failure told apart from the rest when looking; `refused` tells the two refusals from a failed call. */
    method OpenChild(d: Ino, n: Name, device: nat) returns (r: Result<Ino>, refused: bool, ghost seen: FS)
      requires Valid()
      modifies `fs, `checkout, `turns, `alive
      ensures Valid() && OthersMay(old(fs), seen, ours, mine) && OthersMay(seen, fs, ours, mine)
      ensures r.Ok? ==> Bound(seen, d, n, r.value)
      ensures r == Err(Missing) ==> n !in Entries(seen, d)
      ensures r.Ok? && Paths.Ordinary(n) ==> Some(r.value) != ours
      ensures old(Quiet()) ==> Quiet() && fs == old(fs) && checkout == old(checkout)
      ensures old(Quiet()) ==> (r, refused) == OpenChildIn(fs, d, n, device)
    {
      hide OthersMay;
      var ok := NextTurn();
      seen := fs;
      NoChangeAllowed(World());
      if !ok {
        return Err(Other), false, seen;
      }
      var found := OpenDir(fs, d, n);
      if found.Err? {
        return found, false, seen;
      }
      assert Bound(fs, d, n, found.value);
      if Device(fs, found.value) != device {
        return Err(Other), true, seen;
      }
      ok := NextTurn();
      if ok && ".git" in Entries(fs, found.value) {
        return Err(Other), true, seen;
      }
      r, refused := found, false;
    }

    /** Opening and reading one entry without following links. */
    method OpenEntry(d: Ino, n: Name) returns (r: Result<Ino>, data: ByteString)
      requires Valid()
      modifies `fs, `checkout, `turns, `alive
      ensures Valid() && row == old(row)
      ensures r == Err(Missing) ==> n !in Entries(fs, d)
      ensures r.Ok? ==> Bound(fs, d, n, r.value) && r.value in fs.nodes && (fs.nodes[r.value].File? ==> data == fs.nodes[r.value].data)
      ensures OthersMay(old(fs), fs, ours, mine)
      ensures old(Quiet()) ==> Quiet() && fs == old(fs) && checkout == old(checkout) && r == Open(fs, d, n)
    {
      var ok := NextTurn();
      data := [];
      if !ok {
        return Err(Other), [];
      }
      r := Open(fs, d, n);
      if r.Ok? && fs.nodes[r.value].File? {
        data := fs.nodes[r.value].data;
      }
    }

    // ----- Journal writes -----

    /** A journal write that leaves the files alone. */
    method WriteRow(next: Export) returns (ok: bool)
      requires Valid() && next.files == row.files && next.root == row.root && next.stagingName == row.stagingName && next.approved == row.approved
      modifies `fs, `checkout, `turns, `alive, `row
      ensures Valid() && row == (if ok then next else old(row)) && OthersMay(old(fs), fs, ours, mine)
      ensures old(Quiet()) ==> ok && Quiet() && fs == old(fs) && checkout == old(checkout)
    {
      ok := NextTurn();
      if ok {
        JournalOtherSafe(World(), next);
        row := next;
      }
    }

    method RecordStaged(k: nat, i: Ino) returns (ok: bool)
      requires Valid() && k < |row.files| && !Staged(World(), k) && row.files[k].outcome == Pending
      requires Waiting(World(), i, k, row.files[k].expected)
      modifies `fs, `checkout, `turns, `alive, `row
      ensures Valid() && row == (if ok then WithStaged(old(row), k, i) else old(row))
      ensures old(Quiet()) ==> ok && Quiet() && fs == old(fs) && checkout == old(checkout)
    {
      ghost var start := World();
      ok := NextTurn();
      WaitingKept(start, fs, i, k, row.files[k].expected);
      if ok {
        JournalStagedSafe(World(), k, i);
        row := WithStaged(row, k, i);
      }
    }

    method RecordOutcome(k: nat, o: Outcome) returns (ok: bool)
      requires Valid() && k < |row.files| && (o == Created ==> k in moved)
      modifies `fs, `checkout, `turns, `alive, `row
      ensures Valid() && row == (if ok then WithOutcome(old(row), k, o) else old(row))
      ensures old(Quiet()) ==> ok && Quiet() && fs == old(fs) && checkout == old(checkout)
    {
      ok := NextTurn();
      if ok {
        JournalOutcomeSafe(World(), k, o);
        JournalAimed(World(), WithOutcome(row, k, o));
        hide Safe, Own, Aimed, OwnStep, TakesEntry, WithOutcome;
        row := WithOutcome(row, k, o);
      }
    }

    method RecordReconciliation(outcomes: map<nat, Outcome>, state: State) returns (ok: bool)
      requires Valid() && forall k: nat :: k in outcomes && outcomes[k] == Created ==> k in moved
      modifies `fs, `checkout, `turns, `alive, `row
      ensures Valid() && row == (if ok then WithOutcomes(old(row), outcomes, state) else old(row)) && OthersMay(old(fs), fs, ours, mine)
      ensures old(Quiet()) ==> ok && Quiet() && fs == old(fs) && checkout == old(checkout)
    {
      ok := NextTurn();
      if ok {
        JournalReconciledSafe(World(), outcomes, state);
        JournalAimed(World(), WithOutcomes(row, outcomes, state));
        hide Safe, Own, Aimed, OwnStep, TakesEntry, WithOutcomes;
        row := WithOutcomes(row, outcomes, state);
      }
    }

    /** A new daemon process over what the old one left. */
    method Restart()
      requires Valid()
      modifies `alive
      ensures Valid() && alive
    {
      alive := true;
    }
  }
}
