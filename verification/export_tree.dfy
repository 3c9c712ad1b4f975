/** What an undisturbed export does to the tree of paths below the checkout root. */
module ExportTree {
  import opened Bytes
  import opened Filesystem
  import opened ExportJournal
  import opened ExportSafety
  import opened Wrappers
  import Paths

  /** A path that does not start in the staging directory. */
  predicate Outside(p: Path, staging: Name) {
    p == [] || p[0] != staging
  }

  /** Nothing about inode `i` has changed, except the entries of a directory. */
  predicate SameThing(before: FS, after: FS, i: Ino) {
    (i in before.nodes <==> i in after.nodes) && (i in before.nodes ==> SameInode(before, after, i))
  }

  /** An installation under way: the tree it started from, and the directories and files it has added. */
  datatype Plan = Plan(start: FS, root: Ino, staging: Name, dirs: set<Path>, done: map<Path, ByteString>)

  /** `p` leads to the same thing as at the start, or to what was added there. */
  ghost predicate LaidAt(plan: Plan, fs: FS, p: Path) {
    var w := Walk(fs, plan.root, p);
    if p in plan.done then
      w.Some? && w.value in fs.nodes && fs.nodes[w.value].File? && fs.nodes[w.value].data == plan.done[p]
    else if p in plan.dirs then
      w.Some? && IsDir(fs, w.value) && Device(fs, w.value) == Device(plan.start, plan.root)
    else
      w == Walk(plan.start, plan.root, p) && (w.Some? ==> SameThing(plan.start, fs, w.value))
  }

  ghost predicate UniqueDirs(fs: FS, root: Ino, staging: Name) {
    forall p: Path, q: Path {:trigger Walk(fs, root, p), Walk(fs, root, q)} ::
      (Outside(p, staging) && Outside(q, staging)
       && Walk(fs, root, p).Some? && Walk(fs, root, p) == Walk(fs, root, q) && IsDir(fs, Walk(fs, root, p).value))
      ==> p == q
  }

  predicate NewPath(plan: Plan, p: Path) {
    p != [] && (forall n <- p :: Paths.Ordinary(n)) && Walk(plan.start, plan.root, p).None?
  }

  ghost predicate Laid(plan: Plan, fs: FS) {
    && (forall p: Path {:trigger Walk(fs, plan.root, p)} :: Outside(p, plan.staging) ==> LaidAt(plan, fs, p))
    && UniqueDirs(fs, plan.root, plan.staging)
    && (forall p :: p in plan.dirs || p in plan.done ==> NewPath(plan, p))
  }

  // ----- How a changed set of names changes where paths lead -----

  datatype Entry = Entry(dir: Ino, name: Name, ino: Ino)

  /** Outside the staging directory `s` and its own name, the names are those of before and perhaps one more. */
  ghost predicate Grows(before: FS, after: FS, plan: Plan, s: Ino, more: Option<Entry>) {
    forall d: Ino, n: Name, i: Ino {:trigger Bound(after, d, n, i)} {:trigger Bound(before, d, n, i)} ::
      d != s && !(d == plan.root && n == plan.staging)
      ==> (Bound(after, d, n, i) <==> Bound(before, d, n, i) || more == Some(Entry(d, n, i)))
  }

  ghost predicate OnlyStagingName(fs: FS, plan: Plan, s: Ino) {
    s != plan.root && forall d: Ino, n: Name :: Bound(fs, d, n, s) ==> d == plan.root && n == plan.staging
  }

  lemma LastStep(fs: FS, root: Ino, p: Path)
    requires p != [] && Walk(fs, root, p).Some?
    ensures var q, n := p[..|p| - 1], p[|p| - 1];
            Walk(fs, root, q).Some? && Bound(fs, Walk(fs, root, q).value, n, Walk(fs, root, p).value)
  {
    var q, n := p[..|p| - 1], p[|p| - 1];
    assert p == q + [n];
    WalkStep(fs, root, q, n);
  }

  lemma SameEnd(p: Path, m: Name, q: Path, n: Name)
    ensures p + [m] == q + [n] <==> p == q && m == n
  {
    if p + [m] == q + [n] {
      assert |p| == |q| && (p + [m])[..|p|] == p && (q + [n])[..|q|] == q;
      assert (p + [m])[|p|] == m && (q + [n])[|q|] == n;
    }
  }

  /** A path outside does not pass through the root or the staging directory again. */
  lemma StaysOutside(fs: FS, plan: Plan, s: Ino, p: Path)
    requires UniqueDirs(fs, plan.root, plan.staging) && OnlyStagingName(fs, plan, s)
    requires Outside(p, plan.staging) && Walk(fs, plan.root, p).Some? && IsDir(fs, plan.root)
    ensures Walk(fs, plan.root, p).value != s
    ensures Walk(fs, plan.root, p).value == plan.root ==> p == []
  {
    if p != [] {
      LastStep(fs, plan.root, p);
      assert Walk(fs, plan.root, []) == Some(plan.root);
      assert Walk(fs, plan.root, p[..|p| - 1]) == Some(plan.root) ==> p[..|p| - 1] == [];
    }
  }

  /** The new entry of a directory reached by `q`. */
  ghost predicate NewEntry(before: FS, after: FS, plan: Plan, q: Path, e: Entry) {
    && Outside(q + [e.name], plan.staging)
    && Walk(before, plan.root, q) == Some(e.dir) && IsDir(before, e.dir)
    && (forall i: Ino :: !Bound(before, e.dir, e.name, i))
    && (forall n: Name, i: Ino :: !Bound(after, e.ino, n, i))
  }

  /** The only path that leads elsewhere afterwards is the one that ends with the new entry. */
  lemma {:induction false} WalkAfter(before: FS, after: FS, plan: Plan, s: Ino, more: Option<Entry>, q: Path, p: Path)
    requires Grows(before, after, plan, s, more)
    requires UniqueDirs(before, plan.root, plan.staging) && OnlyStagingName(before, plan, s) && IsDir(before, plan.root)
    requires more.Some? ==> NewEntry(before, after, plan, q, more.value)
    requires Outside(p, plan.staging)
    ensures Walk(after, plan.root, p)
            == if more.Some? && p == q + [more.value.name] then Some(more.value.ino) else Walk(before, plan.root, p)
    decreases |p|
  {
    hide Bound, UniqueDirs, OnlyStagingName;
    if p != [] {
      var r, n := p[..|p| - 1], p[|p| - 1];
      assert p == r + [n];
      WalkAfter(before, after, plan, s, more, q, r);
      StepAfter(before, after, plan, s, more, q, r, n);
    } else {
      assert more.Some? ==> |q + [more.value.name]| > 0;
    }
  }

  lemma StepAfter(before: FS, after: FS, plan: Plan, s: Ino, more: Option<Entry>, q: Path, r: Path, n: Name)
    requires Grows(before, after, plan, s, more)
    requires UniqueDirs(before, plan.root, plan.staging) && OnlyStagingName(before, plan, s) && IsDir(before, plan.root)
    requires more.Some? ==> NewEntry(before, after, plan, q, more.value)
    requires Outside(r + [n], plan.staging) && Outside(r, plan.staging)
    requires Walk(after, plan.root, r)
            == if more.Some? && r == q + [more.value.name] then Some(more.value.ino) else Walk(before, plan.root, r)
    ensures Walk(after, plan.root, r + [n])
            == if more.Some? && r + [n] == q + [more.value.name] then Some(more.value.ino) else Walk(before, plan.root, r + [n])
  {
    WalkStep(before, plan.root, r, n);
    WalkStep(after, plan.root, r, n);
    if more.Some? {
      SameEnd(r, n, q, more.value.name);
    }
    if more.Some? && r == q + [more.value.name] {
      WalkStep(before, plan.root, q, more.value.name);
      NoBound(before, more.value.dir, more.value.name);
      NoBound(after, more.value.ino, n);
      assert |r + [n]| != |q + [more.value.name]|;
    } else if Walk(before, plan.root, r).Some? {
      var d := Walk(before, plan.root, r).value;
      StaysOutside(before, plan, s, r);
      assert (r + [n])[0] == if r == [] then n else r[0];
      if more.Some? && more.value.dir == d && more.value.name == n {
        assert Bound(after, d, n, more.value.ino);
        NoBound(before, d, n);
        assert Outside(q, plan.staging) by { assert q != [] ==> (q + [n])[0] == q[0]; }
        assert r == q;
      } else {
        SameEntry(before, after, d, n);
      }
    }
  }

  lemma NoBound(fs: FS, d: Ino, n: Name)
    ensures n in Entries(fs, d) <==> exists i: Ino :: Bound(fs, d, n, i)
  {
    if n in Entries(fs, d) {
      assert Bound(fs, d, n, Entries(fs, d)[n]);
    }
  }

  lemma SameEntry(before: FS, after: FS, d: Ino, n: Name)
    requires forall i: Ino :: Bound(before, d, n, i) <==> Bound(after, d, n, i)
    ensures n in Entries(before, d) <==> n in Entries(after, d)
    ensures n in Entries(before, d) ==> Entries(before, d)[n] == Entries(after, d)[n]
  {
    if n in Entries(before, d) {
      assert Bound(before, d, n, Entries(before, d)[n]);
    }
    if n in Entries(after, d) {
      assert Bound(after, d, n, Entries(after, d)[n]);
    }
  }

  /** What is named outside the staging directory stays as it is. */
  ghost predicate KeepsThings(before: FS, after: FS, plan: Plan, s: Ino) {
    && SameThing(before, after, plan.root)
    && forall d: Ino, n: Name, i: Ino {:trigger Bound(before, d, n, i)} ::
         Bound(before, d, n, i) && d != s && !(d == plan.root && n == plan.staging) ==> SameThing(before, after, i)
  }

  lemma ReachedSame(before: FS, after: FS, plan: Plan, s: Ino, p: Path)
    requires UniqueDirs(before, plan.root, plan.staging) && OnlyStagingName(before, plan, s) && IsDir(before, plan.root)
    requires KeepsThings(before, after, plan, s)
    requires Outside(p, plan.staging) && Walk(before, plan.root, p).Some?
    ensures SameThing(before, after, Walk(before, plan.root, p).value)
  {
    hide Bound, SameThing, UniqueDirs;
    if p != [] {
      LastStep(before, plan.root, p);
      var q := p[..|p| - 1];
      assert Outside(q, plan.staging);
      StaysOutside(before, plan, s, q);
      assert p[0] != plan.staging && (q == [] ==> p[|p| - 1] == p[0]);
    }
  }

  /** A step of this kind, and what the plan records for it. */
  ghost predicate Adds1(before: FS, after: FS, plan: Plan, next: Plan, q: Path, more: Option<Entry>) {
    match more
    case None => next == plan
    case Some(e) =>
      var p := q + [e.name];
      && NewEntry(before, after, plan, q, e) && NewPath(plan, p) && p !in plan.dirs && p !in plan.done && e.ino in after.nodes
      && (match after.nodes[e.ino]
          case Dir(device, _) =>
            && next == plan.(dirs := plan.dirs + {p}) && device == Device(plan.start, plan.root)
            && e.ino != plan.root && forall d: Ino, n: Name :: !Bound(before, d, n, e.ino)
          case File(_, data, _) => next == plan.(done := plan.done[p := data])
          case _ => false)
  }

  ghost predicate Step(before: FS, after: FS, plan: Plan, next: Plan, s: Ino, q: Path, more: Option<Entry>) {
    && Grows(before, after, plan, s, more) && KeepsThings(before, after, plan, s)
    && OnlyStagingName(before, plan, s) && IsDir(before, plan.root)
    && Adds1(before, after, plan, next, q, more)
  }

  lemma LaidAtAfter(before: FS, after: FS, plan: Plan, next: Plan, s: Ino, q: Path, more: Option<Entry>, p: Path)
    requires Laid(plan, before) && Step(before, after, plan, next, s, q, more) && Outside(p, plan.staging)
    ensures LaidAt(next, after, p)
  {
    hide UniqueDirs, Grows, KeepsThings, NewEntry, NewPath, OnlyStagingName;
    WalkAfter(before, after, plan, s, more, q, p);
    assert LaidAt(plan, before, p);
    if Walk(before, plan.root, p).Some? {
      ReachedSame(before, after, plan, s, p);
    }
  }

  lemma UniqueAfter(before: FS, after: FS, plan: Plan, next: Plan, s: Ino, q: Path, more: Option<Entry>, p1: Path, p2: Path)
    requires Laid(plan, before) && Step(before, after, plan, next, s, q, more)
    requires Outside(p1, plan.staging) && Outside(p2, plan.staging)
    requires Walk(after, plan.root, p1).Some? && Walk(after, plan.root, p1) == Walk(after, plan.root, p2)
    requires IsDir(after, Walk(after, plan.root, p1).value)
    ensures p1 == p2
  {
    hide Grows, KeepsThings, NewEntry, NewPath, OnlyStagingName, Bound, LaidAt;
    WalkAfter(before, after, plan, s, more, q, p1);
    WalkAfter(before, after, plan, s, more, q, p2);
    forall p | p in {p1, p2} && Walk(before, plan.root, p).Some?
      ensures SameThing(before, after, Walk(before, plan.root, p).value)
      ensures p == [] || exists d: Ino, n: Name :: Bound(before, d, n, Walk(before, plan.root, p).value)
    {
      ReachedSame(before, after, plan, s, p);
      if p != [] {
        LastStep(before, plan.root, p);
      }
    }
  }

  /** What has been delivered is still the same inode, unchanged. */
  ghost predicate DoneKept(before: FS, after: FS, plan: Plan) {
    forall p :: p in plan.done ==>
      && Walk(before, plan.root, p).Some? && Walk(after, plan.root, p) == Walk(before, plan.root, p)
      && SameThing(before, after, Walk(before, plan.root, p).value)
  }

  lemma DoneAfter(before: FS, after: FS, plan: Plan, next: Plan, s: Ino, q: Path, more: Option<Entry>)
    requires Laid(plan, before) && Step(before, after, plan, next, s, q, more)
    requires plan.staging != "" && plan.staging[0] == '.'
    ensures DoneKept(before, after, plan)
  {
    forall p | p in plan.done
      ensures Walk(before, plan.root, p).Some? && Walk(after, plan.root, p) == Walk(before, plan.root, p)
      ensures SameThing(before, after, Walk(before, plan.root, p).value)
    {
      assert NewPath(plan, p) && Paths.Ordinary(p[0]);
      assert LaidAt(plan, before, p);
      WalkAfter(before, after, plan, s, more, q, p);
      ReachedSame(before, after, plan, s, p);
    }
  }

  lemma SamePlan(plan: Plan, next: Plan, p: Path)
    requires next.root == plan.root && next.start == plan.start
    ensures NewPath(next, p) == NewPath(plan, p)
  {
  }

  /** Every such step keeps the tree as planned. */
  lemma LaidAfter(before: FS, after: FS, plan: Plan, next: Plan, s: Ino, q: Path, more: Option<Entry>)
    requires Laid(plan, before) && Step(before, after, plan, next, s, q, more)
    ensures Laid(next, after)
  {
    hide LaidAt, NewPath, Grows, KeepsThings, NewEntry, OnlyStagingName;
    forall p: Path | Outside(p, plan.staging)
      ensures LaidAt(next, after, p)
    {
      LaidAtAfter(before, after, plan, next, s, q, more, p);
    }
    forall p1: Path, p2: Path | Outside(p1, plan.staging) && Outside(p2, plan.staging)
      && Walk(after, plan.root, p1).Some? && Walk(after, plan.root, p1) == Walk(after, plan.root, p2)
      && IsDir(after, Walk(after, plan.root, p1).value)
      ensures p1 == p2
    {
      UniqueAfter(before, after, plan, next, s, q, more, p1, p2);
    }
    forall p | p in next.dirs || p in next.done
      ensures NewPath(next, p)
    {
      assert p !in plan.dirs && p !in plan.done ==> more.Some? && p == q + [more.value.name];
      assert NewPath(plan, p);
      SamePlan(plan, next, p);
    }
  }

  // ----- The steps of an undisturbed export -----

  /** What every step below starts from. */
  ghost predicate Underway(plan: Plan, fs: FS, s: Ino) {
    Laid(plan, fs) && WellFormed(fs) && IsDir(fs, plan.root) && plan.root < fs.next && OnlyStagingName(fs, plan, s)
  }

  /** A step in the staging directory, or on its name, leaves the tree as planned. */
  ghost predicate StagingOnly(before: FS, after: FS, plan: Plan, s: Ino) {
    Grows(before, after, plan, s, None) && KeepsThings(before, after, plan, s)
  }

  lemma StagingStep(plan: Plan, before: FS, after: FS, s: Ino)
    requires Underway(plan, before, s) && StagingOnly(before, after, plan, s)
    ensures Laid(plan, after)
  {
    LaidAfter(before, after, plan, plan, s, [], None);
  }

  lemma SameThings(before: FS, after: FS, plan: Plan, s: Ino)
    requires WellFormed(before) && plan.root < before.next
    requires forall i: Ino :: i < before.next ==> SameThing(before, after, i)
    ensures KeepsThings(before, after, plan, s)
  {
  }

  lemma StagingMade(plan: Plan, fs: FS)
    requires Underway(plan, fs, fs.next) && Mkdir(fs, plan.root, plan.staging).Ok?
    ensures var after := Mkdir(fs, plan.root, plan.staging).value;
            && Laid(plan, after) && IsDir(after, fs.next) && Entries(after, fs.next) == map[] && IsDir(after, plan.root)
            && Bound(after, plan.root, plan.staging, fs.next) && Device(after, fs.next) == Device(fs, plan.root) == Device(after, plan.root)
  {
    var after := Mkdir(fs, plan.root, plan.staging).value;
    AddNodeNames(fs, plan.root, plan.staging, Dir(Device(fs, plan.root), map[]));
    assert Bound(after, plan.root, plan.staging, fs.next);
    NoBound(after, fs.next, "");
    assert Entries(after, fs.next) == map[];
    assert StagingOnly(fs, after, plan, fs.next) by {
      hide Bound, AddNode, Laid;
      SameThings(fs, after, plan, fs.next);
    }
    hide Laid, Mkdir, AddNode, StagingOnly, Bound, WellFormed;
    StagingStep(plan, fs, after, fs.next);
  }

  lemma StagedMade(plan: Plan, fs: FS, s: Ino, n: Name)
    requires Underway(plan, fs, s) && CreateFile(fs, s, n).Ok?
    ensures var after := CreateFile(fs, s, n).value; Laid(plan, after) && Adds(fs, after, s, n, fs.next) && SameDirs(fs, after)
  {
    var after := CreateFile(fs, s, n).value;
    hide Bound, AddNode, Laid;
    AddNodeNames(fs, s, n, File(Device(fs, s), [], 1));
    SameThings(fs, after, plan, s);
    StagingStep(plan, fs, after, s);
  }

  /** Directories stay directories on the same device. */
  ghost predicate SameDirs(before: FS, after: FS) {
    forall i: Ino :: IsDir(before, i) ==> IsDir(after, i) && Device(after, i) == Device(before, i)
  }

  /** Everything named `i` is in the staging directory. */
  ghost predicate OnlyStaged(fs: FS, plan: Plan, s: Ino, i: Ino) {
    i != plan.root && forall d: Ino, n: Name :: Bound(fs, d, n, i) ==> d == s
  }

  lemma StagedWritten(plan: Plan, fs: FS, s: Ino, i: Ino, data: ByteString)
    requires Underway(plan, fs, s) && OnlyStaged(fs, plan, s, i) && WriteFile(fs, i, data).Ok?
    ensures var after := WriteFile(fs, i, data).value; Laid(plan, after) && SameDirs(fs, after)
    ensures forall d: Ino, n: Name, j: Ino :: Bound(WriteFile(fs, i, data).value, d, n, j) <==> Bound(fs, d, n, j)
  {
    var after := WriteFile(fs, i, data).value;
    WriteNames(fs, i, data);
    hide Bound, Laid;
    assert KeepsThings(fs, after, plan, s);
    StagingStep(plan, fs, after, s);
  }

  lemma StagedUnlinked(plan: Plan, fs: FS, s: Ino, n: Name)
    requires Underway(plan, fs, s) && Unlink(fs, s, n).Ok? && OnlyStaged(fs, plan, s, Entries(fs, s)[n])
    ensures var after := Unlink(fs, s, n).value; Laid(plan, after) && Drops(fs, after, s, n) && SameDirs(fs, after)
  {
    var after, i := Unlink(fs, s, n).value, Entries(fs, s)[n];
    UnlinkNames(fs, s, n);
    hide Bound, Laid;
    forall j: Ino | j < fs.next && j != i
      ensures SameThing(fs, after, j)
    {
    }
    assert KeepsThings(fs, after, plan, s);
    StagingStep(plan, fs, after, s);
  }

  lemma ProbeMoved(plan: Plan, fs: FS, s: Ino, from: Name, to: Name)
    requires Underway(plan, fs, s) && RenameNoReplace(fs, s, from, s, to).Ok?
    ensures Laid(plan, RenameNoReplace(fs, s, from, s, to).value)
  {
    var after := RenameNoReplace(fs, s, from, s, to).value;
    RenameNames(fs, s, from, s, to);
    hide Bound, Laid, RenameNoReplace;
    assert SameInodesBut(fs, after, {});
    SameThings(fs, after, plan, s);
    StagingStep(plan, fs, after, s);
  }

  lemma StagingRemoved(plan: Plan, fs: FS, s: Ino)
    requires Underway(plan, fs, s) && Rmdir(fs, plan.root, plan.staging).Ok? && Entries(fs, plan.root)[plan.staging] == s
    ensures var after := Rmdir(fs, plan.root, plan.staging).value;
            Laid(plan, after) && plan.staging !in Entries(after, plan.root)
  {
    var after := Rmdir(fs, plan.root, plan.staging).value;
    RmdirNames(fs, plan.root, plan.staging);
    NoBound(after, plan.root, plan.staging);
    hide Bound, Laid;
    forall j: Ino | j < fs.next && j != s
      ensures SameThing(fs, after, j)
    {
    }
    assert KeepsThings(fs, after, plan, s);
    StagingStep(plan, fs, after, s);
  }

  /** What opening one directory component finds in an unchanging file system. */
  function OpenChildIn(fs: FS, d: Ino, n: Name, device: nat): (Result<Ino>, bool) {
    var found := OpenDir(fs, d, n);
    if found.Err? then (found, false)
    else if Device(fs, found.value) != device || ".git" in Entries(fs, found.value) then (Err(Other), true)
    else (found, false)
  }

  /** A missing ancestor is created and entered. */
  lemma DirectoryMade(plan: Plan, fs: FS, s: Ino, q: Path, n: Name)
    requires Underway(plan, fs, s) && Outside(q + [n], plan.staging) && Walk(fs, plan.root, q).Some?
    requires var d, p := Walk(fs, plan.root, q).value, q + [n];
             && Mkdir(fs, d, n).Ok? && Device(fs, d) == Device(plan.start, plan.root)
             && NewPath(plan, p) && p !in plan.dirs && p !in plan.done
    ensures var d, p := Walk(fs, plan.root, q).value, q + [n];
            var after := Mkdir(fs, d, n).value;
            && Laid(plan.(dirs := plan.dirs + {p}), after) && Walk(after, plan.root, p) == Some(fs.next)
            && Adds(fs, after, d, n, fs.next) && SameDirs(fs, after)
            && OpenChildIn(after, d, n, Device(plan.start, plan.root)) == (Ok(fs.next), false)
            && IsDir(after, fs.next) && Device(after, fs.next) == Device(plan.start, plan.root)
            && (plan.staging != "" && plan.staging[0] == '.' ==> DoneKept(fs, after, plan))
  {
    var d, p := Walk(fs, plan.root, q).value, q + [n];
    var after := Mkdir(fs, d, n).value;
    NoBound(fs, d, n);
    AddNodeNames(fs, d, n, Dir(Device(fs, d), map[]));
    NoBound(after, fs.next, ".git");
    assert Bound(after, d, n, fs.next);
    var e := Entry(d, n, fs.next);
    assert Step(fs, after, plan, plan.(dirs := plan.dirs + {p}), s, q, Some(e)) by {
      hide Bound, AddNode, Laid, OpenChildIn;
      SameThings(fs, after, plan, s);
    }
    hide Step, Mkdir, Bound, AddNode, DoneKept;
    if plan.staging != "" && plan.staging[0] == '.' {
      DoneAfter(fs, after, plan, plan.(dirs := plan.dirs + {p}), s, q, Some(e));
    }
    WalkAfter(fs, after, plan, s, Some(e), q, p);
    LaidAfter(fs, after, plan, plan.(dirs := plan.dirs + {p}), s, q, Some(e));
  }

  /** A staged file arrives at its destination. */
  lemma FileMoved(plan: Plan, fs: FS, s: Ino, from: Name, q: Path, n: Name, data: ByteString)
    requires Underway(plan, fs, s) && Outside(q + [n], plan.staging) && Walk(fs, plan.root, q).Some?
    requires var d, p := Walk(fs, plan.root, q).value, q + [n];
             && d != s && RenameNoReplace(fs, s, from, d, n).Ok?
             && NewPath(plan, p) && p !in plan.dirs && p !in plan.done
    requires var i := Entries(fs, s)[from]; i in fs.nodes && fs.nodes[i].File? && fs.nodes[i].data == data
    ensures var d, p := Walk(fs, plan.root, q).value, q + [n];
            var after := RenameNoReplace(fs, s, from, d, n).value;
            Laid(plan.(done := plan.done[p := data]), after) && SameDirs(fs, after)
            && Open(after, d, n) == Ok(Entries(fs, s)[from])
  {
    var d, p, i := Walk(fs, plan.root, q).value, q + [n], Entries(fs, s)[from];
    var after := RenameNoReplace(fs, s, from, d, n).value;
    NoBound(fs, d, n);
    RenameNames(fs, s, from, d, n);
    RenameFiles(fs, s, from, d, n, i);
    assert Bound(after, d, n, i);
    var e := Entry(d, n, i);
    assert forall m: Name, j: Ino :: !Bound(fs, i, m, j);
    assert forall m: Name, j: Ino :: !Bound(after, i, m, j);
    assert Step(fs, after, plan, plan.(done := plan.done[p := data]), s, q, Some(e)) by {
      hide Bound, RenameNoReplace, Laid;
      assert SameInodesBut(fs, after, {});
      SameThings(fs, after, plan, s);
    }
    hide Step, RenameNoReplace, Bound;
    LaidAfter(fs, after, plan, plan.(done := plan.done[p := data]), s, q, Some(e));
  }
}
