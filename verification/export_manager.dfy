/** The export operation: staging, installation, settlement, and read-only recovery. */
module ExportManager {
  import opened Bytes
  import opened Filesystem
  import opened ExportJournal
  import opened ExportSafety
  import opened ExportTree
  import opened ExportCourse
  import opened ExportHost
  import opened ExportTrail
  import opened Wrappers
  import Paths

  /** What was approved does not change once it is journalled. */
  ghost predicate SameApproval(a: Export, b: Export) {
    && a.root == b.root && a.stagingName == b.stagingName && a.approved == b.approved && |a.files| == |b.files|
    && forall k :: 0 <= k < |a.files| ==>
         && a.files[k].destination == b.files[k].destination && a.files[k].kind == b.files[k].kind
         && a.files[k].expected == b.files[k].expected
  }

  ghost predicate OnlyFiles(a: Export, b: Export) {
    b == a.(files := b.files)
  }

  ghost predicate SameOutcomesBut(a: Export, b: Export, changed: set<nat>) {
    |a.files| == |b.files| && forall k: nat :: k < |a.files| && k !in changed ==> a.files[k].outcome == b.files[k].outcome
  }

  ghost predicate SameStaged(a: Export, b: Export) {
    |a.files| == |b.files| && forall k: nat :: k < |a.files| ==> a.files[k].staged == b.files[k].staged
  }

  lemma SamePlanned(start: FS, a: Export, b: Export)
    requires SameApproval(a, b)
    ensures Planned(start, a) ==> Planned(start, b)
  {
    hide PlannedFile;
  }

  lemma SameMade(plan: Plan, a: Export, b: Export)
    requires SameApproval(a, b)
    ensures MadeFor(plan, b.files, |b.files|) ==> MadeFor(plan, a.files, |a.files|)
    ensures forall p :: NeededDir(plan.start, plan.root, a.files, |a.files|, p) == NeededDir(plan.start, plan.root, b.files, |b.files|, p)
  {
    hide Walk;
    forall p
      ensures NeededDir(plan.start, plan.root, a.files, |a.files|, p) == NeededDir(plan.start, plan.root, b.files, |b.files|, p)
    {
      SameNeeded(plan.start, plan.root, a, b, p);
      SameNeeded(plan.start, plan.root, b, a, p);
    }
  }

  lemma SameNeeded(start: FS, root: Ino, a: Export, b: Export, p: Path)
    requires |a.files| == |b.files| && forall k: nat :: k < |a.files| ==> a.files[k].destination == b.files[k].destination && a.files[k].kind == b.files[k].kind
    ensures NeededDir(start, root, a.files, |a.files|, p) ==> NeededDir(start, root, b.files, |b.files|, p)
  {
    hide Walk;
    if NeededDir(start, root, a.files, |a.files|, p) {
      var k: nat, m: nat :| k < |a.files| && a.files[k].kind == Create && 0 < m < |a.files[k].destination| && p == a.files[k].destination[..m];
      assert p == b.files[k].destination[..m];
    }
  }

  const PROBE: Name := "probe"
  const PROBE_MOVED: Name := "probe-moved"

  lemma ProbeNames()
    ensures forall k: nat :: PROBE != SeqName(k) && PROBE_MOVED != SeqName(k)
  {
    forall k: nat
      ensures PROBE != SeqName(k) && PROBE_MOVED != SeqName(k)
    {
      SeqNameIsDigits(k);
    }
  }

  /** `_probe_safe_install`: the non-replacing rename is proved to work inside staging, before any destination is touched. */
  method ProbeSafeInstall(h: Host, ghost plan: Plan) returns (raised: Raised)
    requires h.Valid() && h.ours.Some?
    modifies h`fs, h`checkout, h`turns, h`alive, h`mine, h`steps
    ensures h.Valid()
    ensures old(h.Quiet()) ==> h.Quiet()
    ensures !h.supportsNoReplace ==> raised != NotRaised
    ensures old(h.OnCourse(plan, map[])) ==> raised == NotRaised && h.OnCourse(plan, map[])
  {
    hide Host.Valid, Course, Safe, OnlyStaged;
    ProbeNames();
    h.Names();
    ghost var w, quiet := h.World(), h.OnCourse(plan, map[]);
    var made := h.CreateStaged(PROBE);
    if quiet {
      CourseCreate(w, h.World(), plan, PROBE);
    }
    if made.Err? {
      return OsFailed;
    }
    h.Names();
    w := h.World();
    var moved := h.MoveProbe(PROBE, PROBE_MOVED);
    if quiet {
      CourseProbe(w, h.World(), plan, PROBE, PROBE_MOVED, made.value);
      NotStaged(h.World(), plan, map[PROBE_MOVED := made.value], PROBE);
    }
    var gone := h.UnlinkStaged(PROBE);
    h.Names();
    w := h.World();
    gone := h.UnlinkStaged(PROBE_MOVED);
    if quiet {
      CourseUnlink(w, h.World(), plan, PROBE_MOVED, made.value);
    }
    raised := if moved.Ok? then NotRaised else if moved.errno == Unsupported then ExportRefused else OsFailed;
  }

  /** One file staged, read back, and journalled. */
  method StageOne(h: Host, k: nat, content: ByteString, ghost plan: Plan) returns (raised: Raised)
    requires h.Valid() && h.ours.Some? && k < |h.row.files|
    requires !Staged(h.World(), k) && h.row.files[k].outcome == Pending
    modifies h`fs, h`checkout, h`turns, h`alive, h`mine, h`steps, h`row
    ensures h.Valid()
    ensures old(h.Quiet()) ==> h.Quiet()
    ensures raised == NotRaised ==> Staged(h.World(), k)
    ensures content != old(h.row).files[k].expected ==> raised != NotRaised && h.row == old(h.row)
    ensures h.row == old(h.row) || exists i: Ino :: h.row == WithStaged(old(h.row), k, i)
    ensures old(h.OnCourse(plan, map[])) && k !in h.moved && content == old(h.row).files[k].expected ==>
              raised == NotRaised && h.OnCourse(plan, map[])
  {
    hide Host.Valid, Course, Safe, OnlyStaged;
    h.Names();
    ghost var w, quiet := h.World(), h.OnCourse(plan, map[]) && k !in h.moved && content == h.row.files[k].expected;
    forall j: nat | Staged(h.World(), j)
      ensures SeqName(k) != SeqName(j)
    {
      if SeqName(k) == SeqName(j) {
        SeqNamesDiffer(k, j);
      }
    }
    hide SeqName;
    var made := h.CreateStaged(SeqName(k));
    if quiet {
      CourseCreate(w, h.World(), plan, SeqName(k));
    }
    if made.Err? {
      return OsFailed;
    }
    raised := FillStaged(h, k, made.value, content, plan);
  }

  /** The second half of `StageOne`: the created file is written, read back, and journalled. */
  method FillStaged(h: Host, k: nat, i: Ino, content: ByteString, ghost plan: Plan) returns (raised: Raised)
    requires h.Valid() && h.ours.Some? && k < |h.row.files|
    requires !Staged(h.World(), k) && h.row.files[k].outcome == Pending
    requires Waiting(h.World(), i, k, [])
    modifies h`fs, h`checkout, h`turns, h`alive, h`steps, h`row
    ensures h.Valid()
    ensures old(h.Quiet()) ==> h.Quiet()
    ensures raised == NotRaised ==> Staged(h.World(), k)
    ensures content != old(h.row).files[k].expected ==> raised != NotRaised && h.row == old(h.row)
    ensures h.row == old(h.row) || exists j: Ino :: h.row == WithStaged(old(h.row), k, j)
    ensures old(h.OnCourse(plan, map[SeqName(k) := i]) && i in h.fs.nodes && h.fs.nodes[i].File? && h.fs.nodes[i].links == 1)
            && OnlyStaged(old(h.fs), plan, h.ours.value, i) && k !in h.moved && content == old(h.row).files[k].expected ==>
              raised == NotRaised && h.OnCourse(plan, map[])
  {
    hide Host.Valid, Course, Safe, OnlyStaged, SeqName, Waiting, OthersMay, Bound, WriteFile, Open;
    h.Names();
    ghost var w := h.World();
    ghost var quiet := h.OnCourse(plan, map[SeqName(k) := i]) && i in h.fs.nodes && h.fs.nodes[i].File? && h.fs.nodes[i].links == 1
      && OnlyStaged(h.fs, plan, h.ours.value, i) && k !in h.moved && content == h.row.files[k].expected;
    var written := h.WriteStaged(i, k, content);
    if quiet {
      CourseWrite(w, h.World(), plan, SeqName(k), i, content);
      StagedOpens(h.World(), plan, SeqName(k), i);
    }
    if written.Err? {
      return OsFailed;
    }
    ghost var before := h.World();
    var check, data := h.OpenEntry(h.ours.value, SeqName(k));
    WaitingKept(before, h.fs, i, k, content);
    if check.Err? {
      return OsFailed;
    }
    WaitingFound(h.World(), i, k, content, check.value);
    if !h.fs.nodes[check.value].File? || h.fs.nodes[check.value].links != 1 || data != h.row.files[k].expected {
      return ExportRefused;
    }
    h.Names();
    w := h.World();
    var ok := h.RecordStaged(k, i);
    if quiet {
      CourseRecord(w, h.World(), plan, k, i);
    }
    raised := if ok then NotRaised else OsFailed;
  }

  /** The first `k` files have been staged if they are to be created; nothing else has changed. */
  ghost predicate StagedTo(before: Export, row: Export, k: nat) {
    && SameApproval(before, row) && SameOutcomesBut(before, row, {}) && OnlyFiles(before, row) && k <= |row.files|
    && (forall j: nat :: j < k && row.files[j].kind == Create ==> row.files[j].staged.Some?)
    && (forall j: nat :: j < |row.files| && row.files[j].staged.Some? ==> row.files[j].kind == Create)
    && (forall j: nat :: k <= j < |row.files| ==> row.files[j].staged.None? && row.files[j].outcome == Pending)
  }

  lemma NothingStaged(row: Export)
    requires forall k: nat :: k < |row.files| ==> row.files[k].staged.None? && row.files[k].outcome == Pending
    ensures StagedTo(row, row, 0)
  {
  }

  /** After one more turn, which staged the file or failed before or after journalling it. */
  lemma StagedNext(before: Export, row: Export, next: Export, k: nat)
    requires StagedTo(before, row, k) && k < |row.files|
    requires next == row || (row.files[k].kind == Create && exists i: Ino :: next == WithStaged(row, k, i))
    ensures SameApproval(before, next) && SameOutcomesBut(before, next, {}) && OnlyFiles(before, next)
    ensures forall j: nat :: j < |next.files| && next.files[j].staged.Some? ==> next.files[j].kind == Create
    ensures row.files[k].kind == Create ==> next.files[k].staged.Some? ==> StagedTo(before, next, k + 1)
    ensures row.files[k].kind != Create ==> StagedTo(before, next, k + 1)
  {
  }

  lemma StagedToMeans(before: Export, row: Export, k: nat)
    requires StagedTo(before, row, k)
    ensures |row.files| == |before.files| && SameApproval(before, row) && SameOutcomesBut(before, row, {}) && OnlyFiles(before, row)
    ensures k < |row.files| ==> row.files[k].staged.None? && row.files[k].outcome == Pending && row.files[k].expected == before.files[k].expected
    ensures forall j: nat :: j < |row.files| && row.files[j].staged.Some? ==> row.files[j].kind == Create
    ensures forall j: nat :: j < k && row.files[j].kind == Create ==> row.files[j].staged.Some?
  {
  }

  /** `_stage`: every file this export will install, before any is installed. */
  method Stage(h: Host, contents: seq<ByteString>, ghost plan: Plan) returns (raised: Raised)
    requires h.Valid() && h.ours.Some? && |contents| == |h.row.files|
    requires forall k: nat :: k < |h.row.files| ==> !Staged(h.World(), k) && h.row.files[k].outcome == Pending
    modifies h`fs, h`checkout, h`turns, h`alive, h`mine, h`steps, h`row
    ensures h.Valid()
    ensures old(h.Quiet()) ==> h.Quiet()
    ensures SameApproval(old(h.row), h.row) && SameOutcomesBut(old(h.row), h.row, {}) && OnlyFiles(old(h.row), h.row)
    ensures forall k: nat :: Staged(h.World(), k) ==> h.row.files[k].kind == Create
    ensures raised == NotRaised ==> forall k: nat :: k < |h.row.files| && h.row.files[k].kind == Create ==> Staged(h.World(), k)
    ensures old(h.OnCourse(plan, map[])) && ApprovedBytes(old(h.row), contents) && h.moved == map[] ==>
              raised == NotRaised && h.OnCourse(plan, map[])
  {
    hide Host.Valid, Host.OnCourse, Host.Quiet, Course, StagedTo, SameApproval, SameOutcomesBut, OnlyFiles;
    ghost var row := h.row;
    assert forall k: nat :: k < |h.row.files| ==> !Staged(h.World(), k);
    NothingStaged(row);
    var k := 0;
    StagedToMeans(row, row, 0);
    while k < |h.row.files|
      invariant 0 <= k <= |h.row.files| == |row.files| && h.Valid()
      invariant old(h.Quiet()) ==> h.Quiet()
      invariant StagedTo(row, h.row, k)
      invariant old(h.OnCourse(plan, map[])) && ApprovedBytes(row, contents) && h.moved == map[] ==> h.OnCourse(plan, map[])
    {
      StagedToMeans(row, h.row, k);
      ghost var now := h.row;
      if h.row.files[k].kind == Create {
        KindKept(row, now, k);
        raised := StageOne(h, k, contents[k], plan);
        StagedNext(row, now, h.row, k);
        if raised != NotRaised {
          return;
        }
        assert Staged(h.World(), k);
      } else {
        StagedNext(row, now, h.row, k);
      }
      k := k + 1;
    }
    StagedToMeans(row, h.row, k);
    raised := NotRaised;
  }

  lemma KindKept(before: Export, row: Export, k: nat)
    requires SameApproval(before, row) && k < |row.files|
    ensures k < |before.files| && before.files[k].kind == row.files[k].kind
  {
  }

  /** The bytes to write are the approved ones. */
  ghost predicate ApprovedBytes(row: Export, contents: seq<ByteString>) {
    |contents| == |row.files| && forall k: nat :: k < |row.files| && row.files[k].kind == Create ==> contents[k] == row.files[k].expected
  }

  /** Directory `d` was entered as `here`: it is what the preview saw there, or this export made a directory there. */
  predicate EnteredThrough(row: Export, here: Path, d: Ino, created: seq<Path>) {
    if WasPresent(row.approved, here) then d == row.approved[here].ino else here in created
  }

  /** The first `m` ancestors of `p` were all there at the preview or made by this export, and the last of them is `d`. */
  ghost predicate EnteredTo(row: Export, p: Path, m: nat, d: Ino, created: seq<Path>) {
    && m < |p| && (if m == 0 then d == row.root else EnteredThrough(row, p[..m], d, created))
    && forall j: nat {:trigger p[..j]} :: 0 < j <= m ==> WasPresent(row.approved, p[..j]) || p[..j] in created
  }

  lemma NothingEntered(row: Export, p: Path, created: seq<Path>)
    requires p != []
    ensures EnteredTo(row, p, 0, row.root, created)
  {
  }

  lemma EnteredNext(row: Export, p: Path, m: nat, d: Ino, before: seq<Path>, next: Ino, created: seq<Path>)
    requires EnteredTo(row, p, m, d, before) && before <= created && m + 1 < |p| && EnteredThrough(row, p[..m + 1], next, created)
    ensures EnteredTo(row, p, m + 1, next, created)
  {
    assert forall q :: q in before ==> q in created;
  }

  lemma EnteredAll(row: Export, p: Path, d: Ino, created: seq<Path>)
    requires p != [] && EnteredTo(row, p, |p| - 1, d, created)
    ensures RightPlace(row, p, d)
  {
    assert |p| > 1 ==> p[..|p| - 1] == ParentOf(p);
  }

  /** One component of `_descend_creating`: created if it is missing, and entered only if it is what the preview saw or what this export made. */
  method CreateOrEnter(h: Host, k: nat, m: nat, current: Ino, created0: seq<Path>, device: nat, ghost plan: Plan)
    returns (next: Result<Ino>, created: seq<Path>, ghost after: Plan)
    requires h.Valid() && h.ours.Some? && Some(current) != h.ours && k < |h.row.files| && m < |h.row.files[k].destination| - 1
    modifies h`fs, h`checkout, h`turns, h`alive, h`mine, h`steps
    ensures h.Valid() && (next.Ok? ==> Some(next.value) != h.ours) && created0 <= created
    ensures old(h.Quiet()) ==> h.Quiet()
    ensures created == created0 || (created == created0 + [h.row.files[k].destination[..m + 1]] && h.mine != old(h.mine))
    ensures next.Ok? ==> EnteredThrough(h.row, h.row.files[k].destination[..m + 1], next.value, created)
    ensures old(h.OnCourse(plan, map[])) && ArrivesAt(plan, h.row, k) && device == Device(plan.start, plan.root)
            && At(plan, old(h.fs), h.row.files[k].destination[..m], current) && (forall p :: p in created0 <==> p in plan.dirs) ==>
              var here := h.row.files[k].destination[..m + 1];
              && next.Ok? && h.OnCourse(after, map[]) && At(after, h.fs, here, next.value)
              && (forall p :: p in created <==> p in after.dirs)
              && after == if here in plan.dirs || Walk(plan.start, plan.root, here).Some? then plan else plan.(dirs := plan.dirs + {here})
  {
    hide Host.Valid, Course, Safe, Walk, OpenChildIn, Passable, NewPath, OthersMay, Mkdir;
    h.Names();
    created, after := created0, plan;
    var destination := h.row.files[k].destination;
    var component, here := destination[m], destination[..m + 1];
    assert component in destination && here == destination[..m] + [component];
    var wasPresent := WasPresent(h.row.approved, here);
    ghost var w := h.World();
    ghost var quiet := h.OnCourse(plan, map[]) && ArrivesAt(plan, h.row, k) && device == Device(plan.start, plan.root)
      && At(plan, h.fs, destination[..m], current) && (forall p :: p in created0 <==> p in plan.dirs);
    if quiet {
      BeforeEntering(w, plan, k, m, current);
      if !wasPresent && here !in plan.dirs {
        after := plan.(dirs := plan.dirs + {here});
      }
    }
    var made := h.MakeDirectory(current, component);
    if quiet && after != plan {
      CourseMkdir(w, h.World(), plan, destination[..m], component);
    }
    if made.Ok? {
      created := created + [here];
      if wasPresent {
        return Err(Other), created, after;
      }
    } else if made.errno != Exists {
      return Err(Other), created, after;
    }
    var refused;
    ghost var seen;
    next, refused, seen := h.OpenChild(current, component, device);
    if next.Err? {
      return Err(Other), created, after;
    }
    if wasPresent {
      if h.row.approved[here].ino != next.value {
        return Err(Other), created, after;
      }
    } else if !made.Ok? && here !in created {
      return Err(Other), created, after;
    }
  }

  /** `_descend_creating`: opens the destination's parent, creating only directories that were absent at the preview. */
  method DescendCreating(h: Host, k: nat, created0: seq<Path>, ghost plan: Plan)
    returns (parent: Result<Ino>, created: seq<Path>, ghost after: Plan)
    requires h.Valid() && h.ours.Some? && k < |h.row.files|
    modifies h`fs, h`checkout, h`turns, h`alive, h`mine, h`steps
    ensures h.Valid()
    ensures old(h.Quiet()) ==> h.Quiet()
    ensures parent.Ok? ==> Some(parent.value) != h.ours && RightPlace(h.row, h.row.files[k].destination, parent.value)
    ensures parent.Ok? ==> EnteredTo(h.row, h.row.files[k].destination, |h.row.files[k].destination| - 1, parent.value, created)
    ensures created0 <= created
    ensures old(h.OnCourse(plan, map[])) && ArrivesAt(plan, h.row, k) && (forall p :: p in created0 <==> p in plan.dirs)
            && h.row.files[k].destination != [] ==>
              var destination := h.row.files[k].destination;
              && parent.Ok? && h.OnCourse(after, map[]) && At(after, h.fs, destination[..|destination| - 1], parent.value)
              && (forall p :: p in created <==> p in after.dirs) && AddedFor(plan, after, destination, |destination| - 1)
  {
    hide Host.Valid, Host.OnCourse, Walk, EnteredTo, EnteredThrough, RightPlace;
    h.Names();
    created, after := created0, plan;
    var destination := h.row.files[k].destination;
    NothingEntered(h.row, destination, created);
    ghost var quiet := h.OnCourse(plan, map[]) && ArrivesAt(plan, h.row, k) && (forall p :: p in created0 <==> p in plan.dirs) && destination != [];
    if quiet {
      h.CourseRoot(plan);
    }
    var device := Device(h.fs, h.row.root);
    var current := h.row.root;
    var m := 0;
    while m < |destination| - 1
      invariant 0 <= m <= |destination| - 1
      invariant h.Valid() && Some(current) != h.ours
      invariant old(h.Quiet()) ==> h.Quiet()
      invariant created0 <= created
      invariant EnteredTo(h.row, destination, m, current, created)
      invariant quiet ==> h.OnCourse(after, map[]) && At(after, h.fs, destination[..m], current)
      invariant quiet ==> ArrivesAt(after, h.row, k) && (forall p :: p in created <==> p in after.dirs) && AddedFor(plan, after, destination, m)
      decreases |destination| - m
    {
      var next;
      ghost var mid, before := after, created;
      next, created, after := CreateOrEnter(h, k, m, current, created, device, after);
      if next.Err? {
        return next, created, after;
      }
      if quiet {
        AddedNext(plan, mid, after, destination, m);
        StillArrives(mid, after, h.row, k, destination[..m + 1]);
      }
      EnteredNext(h.row, destination, m, current, before, next.value, created);
      current := next.value;
      m := m + 1;
    }
    EnteredAll(h.row, destination, current, created);
    parent := Ok(current);
  }

  /** `_install_one`: moves one staged file into its approved destination. */
  method InstallOne(h: Host, k: nat, created0: seq<Path>, ghost plan: Plan)
    returns (outcome: Outcome, raised: Raised, created: seq<Path>, ghost after: Plan)
    requires h.Valid() && h.ours.Some? && k < |h.row.files| && Staged(h.World(), k)
    requires h.row.files[k].outcome == Pending
    modifies h`fs, h`checkout, h`turns, h`alive, h`mine, h`moved, h`steps, h`row
    ensures h.Valid() && created0 <= created && old(h.moved).Keys <= h.moved.Keys <= old(h.moved).Keys + {k}
    ensures old(h.Quiet()) ==> h.Quiet()
    ensures h.row == old(h.row) || h.row == WithOutcome(old(h.row), k, outcome)
    ensures raised == NotRaised ==> h.row == WithOutcome(old(h.row), k, outcome) && outcome in {Created, NotInstalled}
    ensures k !in old(h.moved) && h.row.files[k].outcome == NotInstalled ==> k !in h.moved
    ensures old(h.OnCourse(plan, map[])) && ArrivesAt(plan, old(h.row), k) && (forall p :: p in created0 <==> p in plan.dirs)
            && k !in old(h.moved) && old(h.row).files[k].kind == Create ==>
              && raised == NotRaised && outcome == Created && k in h.moved && h.OnCourse(after, map[])
              && (forall p :: p in created <==> p in after.dirs)
              && exists mid :: Installed(plan, mid, after, old(h.row).files[k].destination, old(h.row).files[k].expected)
  {
    hide Host.Valid, Course, Walk, NewPath, Safe;
    h.Names();
    ghost var quiet := h.OnCourse(plan, map[]) && ArrivesAt(plan, h.row, k) && (forall p :: p in created0 <==> p in plan.dirs)
      && k !in h.moved && h.row.files[k].kind == Create;
    outcome := Pending;
    var parent;
    parent, created, after := DescendCreating(h, k, created0, plan);
    if parent.Err? {
      outcome := NotInstalled;
      var ok := h.RecordOutcome(k, NotInstalled);
      return outcome, if ok then NotRaised else OsFailed, created, after;
    }
    ghost var mid := after;
    raised, outcome, after := MoveOne(h, k, parent.value, mid);
    if quiet {
      assert Installed(plan, mid, after, old(h.row).files[k].destination, old(h.row).files[k].expected);
    }
  }

  /** The directories added for a file, and then the file. */
  ghost predicate Installed(plan: Plan, mid: Plan, after: Plan, destination: Path, expected: ByteString) {
    && destination != [] && AddedFor(plan, mid, destination, |destination| - 1)
    && after == mid.(done := mid.done[destination := expected])
  }

  /** What was moved can be opened where it was moved to. */
  lemma MovedOpens(w: World, k: nat, d: Ino, n: Name)
    requires Safe(w) && w.ours.Some? && Staged(w, k) && d != w.ours.value
    requires RenameNoReplace(w.fs, w.ours.value, SeqName(k), d, n).Ok?
    ensures Open(RenameNoReplace(w.fs, w.ours.value, SeqName(k), d, n).value, d, n).Ok?
  {
    var s := w.ours.value;
    var i, after := Entries(w.fs, s)[SeqName(k)], RenameNoReplace(w.fs, s, SeqName(k), d, n).value;
    RenamedEntry(w.fs, s, SeqName(k), d, n);
    RenameNames(w.fs, s, SeqName(k), d, n);
    assert i in w.fs.nodes && w.fs.nodes[i].File?;
    RenameFiles(w.fs, s, SeqName(k), d, n, i);
    assert Bound(after, d, n, i);
  }

  /** Undisturbed, the move of a staged file into its approved parent succeeds, and the run is on course with the file in place. */
  lemma MoveArrives(w: World, v: World, plan: Plan, k: nat, parent: Ino)
    requires Safe(w) && Course(w, plan, map[]) && ArrivesAt(plan, w.row, k) && w.row.files[k].kind == Create && Staged(w, k) && k !in w.moved
    requires At(plan, w.fs, ParentOf(w.row.files[k].destination), parent) && w.ours.Some? && parent != w.ours.value && v.row == w.row && v.ours == w.ours
    requires var moved := RenameNoReplace(w.fs, w.ours.value, SeqName(k), parent, Base(w.row.files[k].destination));
             moved.Ok? ==> v.moved.Keys == w.moved.Keys + {k} && v.fs == moved.value
    ensures RenameNoReplace(w.fs, w.ours.value, SeqName(k), parent, Base(w.row.files[k].destination)).Ok?
    ensures Course(v, plan.(done := plan.done[w.row.files[k].destination := w.row.files[k].expected]), map[])
    ensures Open(v.fs, parent, Base(w.row.files[k].destination)).Ok?
  {
    hide Safe, Course, RenameNoReplace, Open, SeqName, Base, ParentOf, ArrivesAt, Walk, NewPath;
    BeforeMoving(w, plan, k);
    CourseMove(w, v, plan, k, ParentOf(w.row.files[k].destination));
  }

  /** The rest of `_install_one`, with the destination's parent open. */
  method MoveOne(h: Host, k: nat, parent: Ino, ghost plan: Plan) returns (raised: Raised, outcome: Outcome, ghost after: Plan)
    requires h.Valid() && h.ours.Some? && k < |h.row.files| && Staged(h.World(), k) && Some(parent) != h.ours
    requires h.row.files[k].destination != [] && RightPlace(h.row, h.row.files[k].destination, parent)
    requires h.row.files[k].outcome == Pending
    modifies h`fs, h`checkout, h`turns, h`alive, h`moved, h`steps, h`row
    ensures h.Valid() && old(h.moved).Keys <= h.moved.Keys <= old(h.moved).Keys + {k}
    ensures old(h.Quiet()) ==> h.Quiet()
    ensures h.row == old(h.row) || h.row == WithOutcome(old(h.row), k, outcome)
    ensures raised == NotRaised ==> h.row == WithOutcome(old(h.row), k, outcome) && outcome in {Created, NotInstalled}
    ensures k !in old(h.moved) && h.row.files[k].outcome == NotInstalled ==> k !in h.moved
    ensures old(h.Quiet()) && h.supportsNoReplace ==>
              match RenameNoReplace(old(h.fs), h.ours.value, SeqName(k), parent, Base(old(h.row).files[k].destination))
              case Ok(after) => raised == NotRaised && outcome == Created && h.fs == after
              case Err(Exists) => raised == NotRaised && outcome == NotInstalled && h.fs == old(h.fs)
              case Err(_) => raised != NotRaised && h.row == old(h.row) && h.fs == old(h.fs)
    ensures old(h.OnCourse(plan, map[])) && ArrivesAt(plan, old(h.row), k) && old(h.row).files[k].kind == Create && k !in old(h.moved)
            && At(plan, old(h.fs), ParentOf(old(h.row).files[k].destination), parent) ==>
              && raised == NotRaised && outcome == Created && k in h.moved && h.OnCourse(after, map[])
              && after == plan.(done := plan.done[old(h.row).files[k].destination := old(h.row).files[k].expected])
  {
    hide Host.Valid, Course, Walk, NewPath, Safe, SeqName, RenameNoReplace, Open, Bound, Arrives, ArrivesAt, OthersMay, CreateOnly, HasName, RightPlace, Base, ParentOf, Through, At;
    outcome, after := Pending, plan.(done := plan.done[h.row.files[k].destination := h.row.files[k].expected]);
    ghost var w := h.World();
    assert Safe(w) by {
      h.Names();
    }
    ghost var quiet := h.OnCourse(plan, map[]) && ArrivesAt(plan, h.row, k) && h.row.files[k].kind == Create && k !in h.moved
      && At(plan, h.fs, ParentOf(h.row.files[k].destination), parent);
    if RenameNoReplace(h.fs, h.ours.value, SeqName(k), parent, Base(h.row.files[k].destination)).Ok? {
      MovedOpens(w, k, parent, Base(h.row.files[k].destination));
    }
    var moved := h.MoveIntoPlace(k, parent);
    if quiet {
      MoveArrives(w, h.World(), plan, k, parent);
    }
    if moved.Err? {
      if moved.errno == Exists {
        outcome := NotInstalled;
        var ok := h.RecordOutcome(k, NotInstalled);
        return if ok then NotRaised else OsFailed, outcome, after;
      }
      return if moved.errno == Unsupported then ExportRefused else OsFailed, outcome, after;
    }
    var check, _ := h.OpenEntry(parent, Base(h.row.files[k].destination));
    if check.Err? {
      return OsFailed, outcome, after;
    }
    outcome := Created;
    w := h.World();
    var ok := h.RecordOutcome(k, Created);
    raised := if ok then NotRaised else OsFailed;
    if quiet {
      CourseJournal(w, h.World(), after);
    }
  }

  /** What opening a path's parent finds in an unchanging file system, from its component `m` on. */
  function DescendIn(fs: FS, d: Ino, p: Path, m: nat, device: nat): Result<Ino>
    decreases |p| - m
  {
    if m >= |p| - 1 then Ok(d)
    else
      var (next, refused) := OpenChildIn(fs, d, p[m], device);
      if next.Err? then Err(if refused then Other else next.errno) else DescendIn(fs, next.value, p, m + 1, device)
  }

  lemma RootOpened(states: seq<FS>, root: Ino, p: Path)
    ensures Opened(states, root, p[..0], root)
  {
  }

  /** One component of a descent: it was opened where it led to, or was missing where the descent stood. */
  lemma LookedOn(states: seq<FS>, first: FS, before: FS, seen: FS, after: FS, ours: Option<Ino>, mine: set<Ino>,
                 root: Ino, p: Path, m: nat, d: Ino, next: Result<Ino>)
    returns (more: seq<FS>)
    requires Trail(states, first, before, ours, mine) && OthersMay(before, seen, ours, mine) && OthersMay(seen, after, ours, mine)
    requires m < |p| && Opened(states, root, p[..m], d)
    requires (next.Ok? ==> Bound(seen, d, p[m], next.value)) && (next == Err(Missing) ==> p[m] !in Entries(seen, d))
    ensures Trail(more, first, after, ours, mine)
    ensures next.Ok? ==> Opened(more, root, p[..m + 1], next.value)
    ensures next == Err(Missing) ==> SeenMissing(more, root, p)
  {
    hide Trail, OthersMay, Bound, Opened;
    TrailNext(states, first, before, seen, ours, mine);
    TrailNext(states + [seen], first, seen, after, ours, mine);
    more := states + [seen] + [after];
    OpenedLonger(states, more, root, p[..m], d);
    assert seen in more;
    if next.Ok? {
      OpenedNext(more, root, p, m, d, seen, next.value);
    }
  }

  /** Opens an existing path's parent; Err(Missing) only when a component was looked for and was not there. */
  method Descend(h: Host, destination: Path, ghost plan: Plan) returns (parent: Result<Ino>, ghost states: seq<FS>)
    requires h.Valid() && forall n <- destination :: Paths.Ordinary(n)
    modifies h`fs, h`checkout, h`turns, h`alive
    ensures h.Valid()
    ensures parent.Ok? ==> Some(parent.value) != h.ours
    ensures Trail(states, old(h.fs), h.fs, h.ours, h.mine)
    ensures parent.Ok? ==> Opened(states, h.row.root, ParentOf(destination), parent.value)
    ensures parent == Err(Missing) ==> SeenMissing(states, h.row.root, destination)
    ensures old(h.OnCourse(plan, map[])) && destination != [] && (forall m: nat {:trigger destination[..m]} :: 0 < m < |destination| ==> Through(plan, destination[..m])) ==>
              h.OnCourse(plan, map[]) && parent.Ok? && At(plan, h.fs, ParentOf(destination), parent.value)
    ensures old(h.Quiet()) ==>
              && h.Quiet() && h.fs == old(h.fs) && h.checkout == old(h.checkout)
              && parent == DescendIn(h.fs, h.row.root, destination, 0, Device(h.fs, h.row.root))
  {
    hide Host.Valid, Course, Walk, OpenChildIn, Passable, Through, Trail, Opened, SeenMissing, OthersMay, Bound;
    h.Names();
    states := [h.fs];
    TrailStarts(h.fs, h.ours, h.mine);
    RootOpened(states, h.row.root, destination);
    ghost var alone, fs := h.Quiet(), h.fs;
    ghost var quiet := h.OnCourse(plan, map[]) && destination != []
      && (forall m: nat {:trigger destination[..m]} :: 0 < m < |destination| ==> Through(plan, destination[..m]));
    if quiet {
      h.CourseRoot(plan);
    }
    var device := Device(h.fs, h.row.root);
    var current := h.row.root;
    var m := 0;
    while m < |destination| - 1
      invariant 0 <= m && (quiet ==> m <= |destination| - 1) && h.Valid() && Some(current) != h.ours
      invariant quiet ==> h.OnCourse(plan, map[]) && At(plan, h.fs, destination[..m], current)
      invariant alone ==> h.Quiet() && h.fs == fs && h.checkout == old(h.checkout)
      invariant alone ==> DescendIn(fs, h.row.root, destination, 0, device) == DescendIn(fs, current, destination, m, device)
      invariant m <= |ParentOf(destination)| && Trail(states, old(h.fs), h.fs, h.ours, h.mine) && Opened(states, h.row.root, destination[..m], current)
    {
      assert destination[m] in destination;
      if quiet {
        h.Names();
        EnteredOnCourse(h.World(), plan, destination, m, current);
      }
      ghost var before, seen := h.fs, h.fs;
      var next, refused;
      next, refused, seen := h.OpenChild(current, destination[m], device);
      states := LookedOn(states, old(h.fs), before, seen, h.fs, h.ours, h.mine, h.row.root, destination, m, current, next);
      if next.Err? {
        return if refused then Err(Other) else next, states;
      }
      current := next.value;
      m := m + 1;
    }
    assert ParentOf(destination) == destination[..m];
    parent := Ok(current);
  }

  /** An ordinary file with the approved bytes is at the destination. */
  predicate StillThere(fs: FS, row: Export, k: nat)
    requires k < |row.files|
  {
    var parent := DescendIn(fs, row.root, row.files[k].destination, 0, Device(fs, row.root));
    parent.Ok? &&
    (var found := Open(fs, parent.value, Base(row.files[k].destination));
     found.Ok? && fs.nodes[found.value].File? && fs.nodes[found.value].data == row.files[k].expected)
  }

  /** `_verify_identical`: re-reads a destination that already held the approved content; it receives no write. */
  method VerifyIdentical(h: Host, k: nat, ghost plan: Plan) returns (outcome: Outcome, raised: Raised)
    requires h.Valid() && k < |h.row.files|
    modifies h`fs, h`checkout, h`turns, h`alive, h`row
    ensures h.Valid()
    ensures old(h.Quiet()) ==> h.Quiet()
    ensures h.row == if raised == NotRaised then WithOutcome(old(h.row), k, outcome) else old(h.row)
    ensures outcome in {AlreadyIdentical, NotInstalled}
    ensures old(h.Quiet()) ==>
              raised == NotRaised && h.fs == old(h.fs) && (outcome == AlreadyIdentical <==> StillThere(old(h.fs), old(h.row), k))
    ensures old(h.OnCourse(plan, map[])) && ArrivesAt(plan, old(h.row), k) && old(h.row).files[k].kind == Identical ==>
              raised == NotRaised && outcome == AlreadyIdentical && h.OnCourse(plan, map[])
  {
    hide Host.Valid, Course, Walk, Through, Open, Bound, Arrives, OthersMay;
    h.Names();
    ghost var quiet := h.OnCourse(plan, map[]) && ArrivesAt(plan, h.row, k) && h.row.files[k].kind == Identical;
    if quiet {
      AllThrough(plan, h.row, k);
    }
    outcome := AlreadyIdentical;
    var parent;
    ghost var states;
    parent, states := Descend(h, h.row.files[k].destination, plan);
    if parent.Err? {
      outcome := NotInstalled;
    } else {
      if quiet {
        h.Names();
        IdenticalOnCourse(h.World(), plan, k, parent.value);
      }
      var check, data := h.OpenEntry(parent.value, Base(h.row.files[k].destination));
      if check.Err? || !h.fs.nodes[check.value].File? || data != h.row.files[k].expected {
        outcome := NotInstalled;
      }
    }
    ghost var w := h.World();
    var ok := h.RecordOutcome(k, outcome);
    if quiet {
      CourseJournal(w, h.World(), plan);
    }
    raised := if ok then NotRaised else OsFailed;
  }

  /** The loop of `_clean_staging`: unlinks what the staging directory was seen to hold. */
  method EmptyStaging(h: Host) returns (ok: bool)
    requires h.Valid() && h.ours.Some?
    modifies h`fs, h`checkout, h`turns, h`alive, h`steps
    ensures h.Valid()
    ensures old(h.Quiet()) ==> h.Quiet() && h.checkout == old(h.checkout)
    ensures old(h.Quiet()) && Entries(old(h.fs), h.ours.value) == map[] ==> ok && h.fs == old(h.fs)
    ensures old(h.Quiet()) && Clearable(old(h.fs), h.ours.value) ==>
              ok && IsDir(h.fs, h.ours.value) && OnlyLeft(old(h.fs), h.fs, h.ours.value, {})
  {
    hide Host.Valid, Unlink, OthersMay;
    ok := h.NextTurn();
    if !ok {
      return;
    }
    var children := Entries(h.fs, h.ours.value).Keys;
    while children != {}
      invariant h.Valid()
      invariant old(h.Quiet()) ==> h.Quiet() && h.checkout == old(h.checkout)
      invariant old(h.Quiet()) && Entries(old(h.fs), h.ours.value) == map[] ==> children == {} && h.fs == old(h.fs)
      invariant old(h.Quiet()) && Clearable(old(h.fs), h.ours.value) ==>
                  Clearable(h.fs, h.ours.value) && children == Entries(h.fs, h.ours.value).Keys && OnlyLeft(old(h.fs), h.fs, h.ours.value, children)
      decreases |children|
    {
      var child :| child in children;
      if old(h.Quiet()) && Clearable(old(h.fs), h.ours.value) {
        UnlinkClears(h.fs, h.ours.value, child);
      }
      children := children - {child};
      var gone := h.UnlinkStaged(child);
      if gone.Err? {
        return false;
      }
    }
  }

  /** `_clean_staging`: removes this export's own staging directory, if its name still leads to it. */
  method CleanStaging(h: Host, ghost plan: Plan) returns (left: bool)
    requires h.Valid() && h.ours.Some?
    modifies h`fs, h`checkout, h`turns, h`alive, h`steps
    ensures h.Valid()
    ensures old(h.Quiet()) ==> h.Quiet()
    ensures old(h.OnCourse(plan, map[])) && (forall k: nat :: Staged(old(h.World()), k) ==> k in h.moved) ==>
              !left && h.Quiet() && Laid(plan, h.fs) && plan.staging !in Entries(h.fs, plan.root)
    ensures old(h.Quiet()) && !Bound(old(h.fs), h.row.root, h.row.stagingName, h.ours.value) ==> left && h.fs == old(h.fs)
    ensures old(h.Quiet()) && Bound(old(h.fs), h.row.root, h.row.stagingName, h.ours.value) && h.ours.value != h.row.root
            && Clearable(old(h.fs), h.ours.value) ==>
              !left && Cleared(old(h.fs), h.fs, h.row.root, h.row.stagingName, h.ours.value)
  {
    hide Host.Valid, Course, Walk, Safe, Laid, Rmdir, Bound;
    h.Names();
    ghost var w := h.World();
    ghost var quiet := h.OnCourse(plan, map[]) && forall k: nat :: Staged(w, k) ==> k in h.moved;
    if quiet {
      CourseEnds(w, plan);
      h.CourseStaging(plan);
    }
    var ok := h.NextTurn();
    if !ok || !Bound(h.fs, h.row.root, h.row.stagingName, h.ours.value) {
      return true;
    }
    ghost var before, clear := h.fs, old(h.Quiet()) && h.ours.value != h.row.root && Clearable(h.fs, h.ours.value);
    ok := EmptyStaging(h);
    if !ok {
      return true;
    }
    if clear {
      StagingEmptied(before, h.fs, h.row.root, h.row.stagingName, h.ours.value);
    }
    var removed := h.RemoveStaging();
    left := removed.Err?;
  }

  /** The staging directory is gone with all its names, and no other name has changed. */
  ghost predicate Cleared(before: FS, after: FS, root: Ino, name: Name, staging: Ino) {
    && Entries(after, root) == Entries(before, root) - {name} && Entries(after, staging) == map[]
    && forall e: Ino :: e != root && e != staging ==> Entries(after, e) == Entries(before, e)
  }

  lemma StagingEmptied(before: FS, fs: FS, root: Ino, name: Name, staging: Ino)
    requires Bound(before, root, name, staging) && staging != root && IsDir(fs, staging) && OnlyLeft(before, fs, staging, {})
    ensures Rmdir(fs, root, name).Ok? && Cleared(before, Rmdir(fs, root, name).value, root, name, staging)
  {
    assert Entries(fs, staging) == map[];
    assert Bound(fs, root, name, staging);
    RmdirOnly(fs, root, name, staging);
  }

  /** `finish_export` */
  method FinishExport(h: Host, claimed: State, stagingLeft: bool) returns (ok: bool)
    requires h.Valid() && claimed != Running
    modifies h`fs, h`checkout, h`turns, h`alive, h`row
    ensures h.Valid()
    ensures h.row == if ok then old(h.row).(state := FinishState(claimed, old(h.row).files, stagingLeft)) else old(h.row)
    ensures old(h.Quiet()) ==> ok && h.Quiet() && h.fs == old(h.fs)
  {
    ok := h.WriteRow(h.row.(state := FinishState(claimed, h.row.files, stagingLeft)));
  }

  /** One turn of the installation loop. */
  method DeliverOne(h: Host, k: nat, created0: seq<Path>, ghost plan: Plan, ghost row: Export)
    returns (outcome: Outcome, raised: Raised, created: seq<Path>, ghost after: Plan)
    requires h.Valid() && h.ours.Some? && k < |h.row.files|
    requires SameApproval(row, h.row)
    requires h.row.files[k].outcome == Pending && h.row.files[k].kind != Conflict
    requires h.row.files[k].kind == Create ==> h.row.files[k].staged.Some?
    modifies h`fs, h`checkout, h`turns, h`alive, h`mine, h`moved, h`steps, h`row
    ensures h.Valid() && old(h.moved).Keys <= h.moved.Keys <= old(h.moved).Keys + {k}
    ensures old(h.Quiet()) ==> h.Quiet()
    ensures h.row == old(h.row) || h.row == WithOutcome(old(h.row), k, outcome)
    ensures raised == NotRaised ==> h.row == WithOutcome(old(h.row), k, outcome) && outcome in {Created, AlreadyIdentical, NotInstalled}
    ensures k !in old(h.moved) && h.row.files[k].outcome == NotInstalled ==> k !in h.moved
    ensures OnPlan(plan, row, k, created0) && old(h.OnCourse(plan, map[])) && k !in old(h.moved) ==>
              && raised == NotRaised && Delivered(outcome) && h.OnCourse(after, map[])
              && OnPlan(after, row, k + 1, created) && after.start == plan.start
              && (row.files[k].kind == Create ==> k in h.moved)
  {
    hide Host.Valid, Host.OnCourse, PlannedFile, Walk, NeededDir, NoClash;
    ghost var quiet := OnPlan(plan, row, k, created0) && h.OnCourse(plan, map[]) && k !in h.moved;
    created, after := created0, plan;
    assert h.row.files[k].kind == row.files[k].kind;
    if quiet {
      h.CourseRoot(plan);
      NextArrives(plan, row, k);
    }
    if h.row.files[k].kind == Identical {
      outcome, raised := VerifyIdentical(h, k, plan);
      if quiet {
        MadeForIdentical(plan, row.files, k);
      }
    } else {
      outcome, raised, created, after := InstallOne(h, k, created0, plan);
      if quiet {
        ghost var mid :| Installed(plan, mid, after, row.files[k].destination, row.files[k].expected);
        MadeForCreated(plan, mid, after, row.files, k);
      }
    }
  }

  /** The first `n` files are in place, and `created` names what was created for them. */
  ghost predicate OnPlan(plan: Plan, row: Export, n: nat, created: seq<Path>) {
    Planned(plan.start, row) && plan.root == row.root && MadeFor(plan, row.files, n) && forall p :: p in created <==> p in plan.dirs
  }

  /** After `k` turns of the installation loop the journal has the outcomes of the first `k` files and nothing else new. */
  ghost predicate Passed(row: Export, now: Export, k: nat, complete: bool) {
    && SameApproval(row, now) && SameStaged(row, now) && OnlyFiles(row, now) && k <= |now.files|
    && (forall j: nat :: k <= j < |now.files| ==> now.files[j].outcome == Pending)
    && (forall j: nat :: j + 1 < k ==> Delivered(now.files[j].outcome))
    && (complete ==> forall j: nat :: j < k ==> Delivered(now.files[j].outcome))
    && (!complete ==> exists j: nat :: j < k && !Delivered(now.files[j].outcome))
  }

  lemma PassedNext(row: Export, now: Export, k: nat, o: Outcome)
    requires Passed(row, now, k, true) && k < |now.files|
    ensures Passed(row, WithOutcome(now, k, o), k + 1, Delivered(o))
  {
    var next := WithOutcome(now, k, o);
    assert forall j: nat :: j < |now.files| && j != k ==> next.files[j] == now.files[j];
    assert next.files[k].outcome == o;
  }

  /** The first `k` files were tried, all but the last of them were delivered, and the rest were left alone. */
  ghost predicate StoppedAt(row: Export, k: nat) {
    && k <= |row.files|
    && (forall j: nat :: j + 1 < k ==> Delivered(row.files[j].outcome))
    && forall j: nat :: k <= j < |row.files| ==> row.files[j].outcome == Pending
  }

  lemma PassedMeans(row: Export, now: Export, k: nat, complete: bool)
    requires Passed(row, now, k, complete) && (k == |now.files| || !complete)
    ensures (complete <==> AllDelivered(now.files)) && StoppedAt(now, k)
  {
  }

  /** What an installation needs to start: nothing has an outcome yet, and what is to be created is staged. */
  ghost predicate ReadyToInstall(row: Export) {
    forall k: nat :: k < |row.files| ==>
      row.files[k].outcome == Pending && row.files[k].kind != Conflict && (row.files[k].kind == Create ==> row.files[k].staged.Some?)
  }

  lemma ReadyAt(row: Export, now: Export, k: nat)
    requires ReadyToInstall(row) && Passed(row, now, k, true) && k < |now.files|
    ensures now.files[k].outcome == Pending && now.files[k].kind != Conflict && (now.files[k].kind == Create ==> now.files[k].staged.Some?)
    ensures SameApproval(row, now)
  {
  }

  lemma OutcomesKeep(row: Export, now: Export, k: nat, complete: bool)
    requires Passed(row, now, k, complete)
    ensures SameApproval(row, now) && SameStaged(row, now) && OnlyFiles(row, now)
    ensures forall o: Outcome :: k < |now.files| ==> SameApproval(row, WithOutcome(now, k, o)) && SameStaged(row, WithOutcome(now, k, o)) && OnlyFiles(row, WithOutcome(now, k, o))
  {
  }

  /** No file is recorded as not installed although this export moved it. */
  ghost predicate NothingDenied(row: Export, moved: map<nat, Move>) {
    forall k: nat :: k < |row.files| && row.files[k].outcome == NotInstalled ==> k !in moved
  }

  /** That, after `k` turns of the installation loop. */
  ghost predicate Undenied(row: Export, moved: map<nat, Move>, k: nat) {
    NothingDenied(row, moved) && forall j: nat :: j in moved ==> j < k
  }

  lemma UndeniedAtFirst(row: Export)
    ensures Undenied(row, map[], 0)
  {
  }

  lemma UndeniedMeans(row: Export, moved: map<nat, Move>, k: nat)
    ensures Undenied(row, moved, k) ==> NothingDenied(row, moved)
  {
  }

  lemma UndeniedNext(now: Export, before: map<nat, Move>, row: Export, moved: map<nat, Move>, k: nat, o: Outcome)
    requires Undenied(now, before, k) && k < |now.files| && (row == now || row == WithOutcome(now, k, o))
    requires moved.Keys <= before.Keys + {k}
    requires row.files[k].outcome == NotInstalled ==> k !in moved
    ensures Undenied(row, moved, k + 1) && NothingDenied(row, moved)
  {
    assert forall j: nat :: j in moved ==> j in before || j == k;
  }

  /** Exactly files before `k` were moved, and of those all that are to be created. */
  ghost predicate MovedSoFar(row: Export, moved: map<nat, Move>, k: nat)
    requires k <= |row.files|
  {
    (forall j: nat :: j < k && row.files[j].kind == Create ==> j in moved) && forall j: nat :: j in moved ==> j < k
  }

  lemma MovedEnough(row: Export, moved: map<nat, Move>, k: nat)
    requires k <= |row.files| && MovedSoFar(row, moved, k)
    ensures k !in moved && forall j: nat :: j < k && row.files[j].kind == Create ==> j in moved
  {
  }

  lemma MovedNext(row: Export, before: map<nat, Move>, moved: map<nat, Move>, k: nat)
    requires k < |row.files| && MovedSoFar(row, before, k) && before.Keys <= moved.Keys <= before.Keys + {k}
    requires row.files[k].kind == Create ==> k in moved
    ensures MovedSoFar(row, moved, k + 1)
  {
    assert forall j: nat :: j in before ==> j in moved;
    assert forall j: nat :: j in moved ==> j in before || j == k;
  }

  /** The installation loop: stops at the first file that was not delivered. */
  method InstallFiles(h: Host, ghost plan: Plan) returns (raised: Raised, complete: bool, created: seq<Path>, ghost after: Plan)
    requires h.Valid() && h.ours.Some? && ReadyToInstall(h.row)
    modifies h`fs, h`checkout, h`turns, h`alive, h`mine, h`moved, h`steps, h`row
    ensures h.Valid() && SameApproval(old(h.row), h.row) && SameStaged(old(h.row), h.row) && OnlyFiles(old(h.row), h.row)
    ensures old(h.Quiet()) ==> h.Quiet()
    ensures raised == NotRaised ==> (complete <==> AllDelivered(h.row.files)) && exists k: nat :: StoppedAt(h.row, k)
    ensures old(h.moved) == map[] ==> NothingDenied(h.row, h.moved)
    ensures old(h.OnCourse(plan, map[]) && h.moved == map[]) && OnPlan(plan, old(h.row), 0, []) ==>
              && raised == NotRaised && complete && h.OnCourse(after, map[]) && after.start == plan.start
              && OnPlan(after, old(h.row), |old(h.row).files|, created)
              && forall k: nat :: k < |old(h.row).files| && old(h.row).files[k].kind == Create ==> k in h.moved
  {
    hide Host.Valid, Host.OnCourse, Host.Quiet, OnPlan, SameApproval, SameStaged, OnlyFiles, AllDelivered, NothingDenied, StoppedAt;
    ghost var row := h.row;
    ghost var quiet := h.OnCourse(plan, map[]) && h.moved == map[] && OnPlan(plan, row, 0, []);
    created, after := [], plan;
    raised, complete := NotRaised, true;
    var k := 0;
    SameRow(row);
    assert Passed(row, h.row, 0, true);
    UndeniedAtFirst(row);
    assert quiet ==> MovedSoFar(row, h.moved, 0);
    hide Passed, ReadyToInstall, Undenied, MovedSoFar;
    while k < |h.row.files| && complete
      invariant 0 <= k <= |h.row.files| == |row.files| && h.Valid() && raised == NotRaised
      invariant old(h.Quiet()) ==> h.Quiet()
      invariant Passed(row, h.row, k, complete)
      invariant old(h.moved) == map[] ==> Undenied(h.row, h.moved, k)
      invariant quiet ==> complete && h.OnCourse(after, map[]) && after.start == plan.start && OnPlan(after, row, k, created)
      invariant quiet ==> MovedSoFar(row, h.moved, k)
    {
      ReadyAt(row, h.row, k);
      if quiet {
        MovedEnough(row, h.moved, k);
      }
      OutcomesKeep(row, h.row, k, true);
      ghost var now := h.row;
      var outcome;
      ghost var before := h.moved;
      outcome, raised, created, after := DeliverOne(h, k, created, after, row);
      if old(h.moved) == map[] {
        UndeniedNext(now, before, h.row, h.moved, k, outcome);
      }
      if raised != NotRaised {
        return;
      }
      if quiet {
        MovedNext(row, before, h.moved, k);
      }
      PassedNext(row, now, k, outcome);
      complete := Delivered(outcome);
      k := k + 1;
    }
    if quiet {
      MovedEnough(row, h.moved, k);
    }
    OutcomesKeep(row, h.row, k, complete);
    PassedMeans(row, h.row, k, complete);
    UndeniedMeans(h.row, h.moved, k);
  }

  lemma SameRow(row: Export)
    ensures SameApproval(row, row) && SameStaged(row, row) && OnlyFiles(row, row)
  {
  }

  /** The part of `_install` under its `try`, once the staging directory is open. */
  method StageAndInstall(h: Host, contents: seq<ByteString>, ghost plan: Plan)
    returns (raised: Raised, complete: bool, created: seq<Path>, ghost after: Plan)
    requires h.Valid() && h.ours.Some? && |contents| == |h.row.files| && Admitted(h.row)
    modifies h`fs, h`checkout, h`turns, h`alive, h`mine, h`moved, h`steps, h`row
    ensures h.Valid() && SameApproval(old(h.row), h.row) && OnlyFiles(old(h.row), h.row)
    ensures old(h.Quiet()) ==> h.Quiet()
    ensures raised == NotRaised ==> (complete <==> AllDelivered(h.row.files))
    ensures old(h.moved) == map[] ==> NothingDenied(h.row, h.moved)
    ensures !h.supportsNoReplace ==> raised != NotRaised && h.moved == old(h.moved)
    ensures old(h.OnCourse(plan, map[]) && Planned(plan.start, h.row) && ApprovedBytes(h.row, contents)) && old(h.moved) == map[] && plan.dirs == {} && plan.done == map[] ==>
              && raised == NotRaised && complete && h.OnCourse(after, map[]) && after.start == plan.start
              && MadeFor(after, old(h.row).files, |h.row.files|) && (forall p :: p in created <==> p in after.dirs)
              && forall k: nat :: Staged(h.World(), k) ==> k in h.moved
  {
    hide Host.Valid, Host.OnCourse, PlannedFile, MadeFor, Walk, NoClash;
    complete, created, after := false, [], plan;
    ghost var row := h.row;
    ghost var quiet := h.OnCourse(plan, map[]) && Planned(plan.start, row) && ApprovedBytes(row, contents) && h.moved == map[] && plan.dirs == {} && plan.done == map[];
    raised := ProbeSafeInstall(h, plan);
    if raised != NotRaised {
      return;
    }
    raised := Stage(h, contents, plan);
    if raised != NotRaised {
      return;
    }
    ghost var staged := h.row;
    SamePlanned(plan.start, row, staged);
    if quiet {
      h.CourseRoot(plan);
      NothingMadeYet(plan, staged.files);
    }
    raised, complete, created, after := InstallFiles(h, plan);
    SameMade(after, row, staged);
  }

  lemma StagingOpens(fs: FS, root: Ino, name: Name)
    requires Mkdir(fs, root, name).Ok?
    ensures OpenDir(Mkdir(fs, root, name).value, root, name) == Ok(fs.next)
  {
  }

  /** `_create_staging`: makes a directory, opens whatever its name leads to then, and journals that directory's identity. */
  method CreateStaging(h: Host, ghost plan: Plan) returns (raised: Raised)
    requires h.Valid() && h.ours.None?
    modifies h`fs, h`checkout, h`turns, h`alive, h`ours, h`intact, h`mine, h`steps, h`row
    ensures h.Valid() && SameApproval(old(h.row), h.row) && h.row.files == old(h.row).files && h.row.state == old(h.row).state
    ensures old(h.Quiet()) ==> h.Quiet()
    ensures raised == NotRaised ==> h.ours.Some?
    ensures h.row.createdDirectories == old(h.row).createdDirectories
    ensures old(h.Undisturbed(plan)) && Laid(plan, old(h.fs)) && plan.start == old(h.fs) && plan.staging !in Entries(old(h.fs), plan.root) ==>
              raised == NotRaised && h.OnCourse(plan, map[])
  {
    hide Host.Valid, Course, Safe, Walk, Laid, Bound, Mkdir;
    h.Names();
    ghost var w := h.World();
    ghost var quiet := h.Undisturbed(plan) && Laid(plan, h.fs) && plan.start == h.fs && plan.staging !in Entries(h.fs, plan.root);
    var made := h.MakeStaging();
    if quiet {
      StagingCanBeMade(w);
      StagingOpens(w.fs, h.row.root, h.row.stagingName);
    }
    if made.Err? {
      return ExportRefused;
    }
    var entered := h.OpenStaging();
    if quiet {
      CourseStarts(w, h.World(), plan);
    }
    if entered.Err? {
      return OsFailed;
    }
    w := h.World();
    var ok := h.WriteRow(h.row.(stagingDir := Some(entered.value)));
    if quiet {
      CourseJournal(w, h.World(), plan);
    }
    raised := if ok then NotRaised else OsFailed;
  }

  ghost predicate Admitted(row: Export) {
    row.state == Running && forall k: nat :: k < |row.files| ==>
      row.files[k].staged.None? && row.files[k].outcome == Pending && row.files[k].kind != Conflict
  }

  /** `_install` */
  method Install(h: Host, contents: seq<ByteString>, ghost plan: Plan) returns (raised: Raised)
    requires h.Valid() && h.ours.None? && |contents| == |h.row.files| && Admitted(h.row)
    modifies h`fs, h`checkout, h`turns, h`alive, h`ours, h`intact, h`mine, h`moved, h`steps, h`row
    ensures h.Valid() && SameApproval(old(h.row), h.row)
    ensures old(h.Quiet()) ==> h.Quiet()
    ensures raised == NotRaised ==> h.row.state != Running && (h.row.state == Completed ==> AllDelivered(h.row.files))
    ensures raised == NotRaised ==> (h.row.state == Unresolved <==> LeftOpen(h.row.files))
    ensures old(h.Quiet()) && old(h.checkout) != Some(old(h.row).root) ==> raised == ExportRefused && h.row == old(h.row)
    ensures old(h.moved) == map[] ==> NothingDenied(h.row, h.moved)
    ensures !h.supportsNoReplace ==> raised != NotRaised && h.moved == old(h.moved)
    ensures old(h.Undisturbed(plan)) && Starts(plan, old(h.fs), old(h.row), contents) && old(h.moved) == map[] ==>
              raised == NotRaised && Finished(old(h.fs), h.fs, old(h.row).files, h.row)
  {
    hide Host.Valid, Host.OnCourse, Planned, Laid, Finished, MadeFor;
    if Planned(h.fs, h.row) {
      PlannedRoot(h.fs, h.row);
    }
    var root := h.ReopenRoot();
    if root.Err? {
      return ExportRefused;
    }
    raised := CreateStaging(h, plan);
    if raised != NotRaised {
      return;
    }
    SamePlanned(plan.start, old(h.row), h.row);
    raised := StageInstallAndSettle(h, contents, plan);
  }

  /** The rest of `_install`: what its `try` does, what its `finally` does, and the settlement. */
  method StageInstallAndSettle(h: Host, contents: seq<ByteString>, ghost plan: Plan) returns (raised: Raised)
    requires h.Valid() && h.ours.Some? && |contents| == |h.row.files| && Admitted(h.row)
    modifies h`fs, h`checkout, h`turns, h`alive, h`mine, h`moved, h`steps, h`row
    ensures h.Valid() && SameApproval(old(h.row), h.row)
    ensures old(h.Quiet()) ==> h.Quiet()
    ensures raised == NotRaised ==> h.row.state != Running && (h.row.state == Completed ==> AllDelivered(h.row.files))
    ensures raised == NotRaised ==> (h.row.state == Unresolved <==> LeftOpen(h.row.files))
    ensures old(h.moved) == map[] ==> NothingDenied(h.row, h.moved)
    ensures !h.supportsNoReplace ==> raised != NotRaised && h.moved == old(h.moved)
    ensures old(h.OnCourse(plan, map[])) && Starts(plan, plan.start, old(h.row), contents) && old(h.moved) == map[] ==>
              raised == NotRaised && Finished(plan.start, h.fs, old(h.row).files, h.row)
  {
    hide Host.Valid, Host.OnCourse, Host.Quiet, Safe, Planned, Laid, MadeFor, Finished, ApprovedBytes, AllDelivered, Course, Walk, NoClash, LeftOpen, FinishState;
    ghost var row := h.row;
    ghost var quiet := h.OnCourse(plan, map[]) && Starts(plan, plan.start, row, contents) && h.moved == map[];
    var complete, created;
    ghost var after;
    raised, complete, created, after := StageAndInstall(h, contents, plan);
    if quiet {
      h.CourseRoot(after);
    }
    h.Names();
    var ok, left := CleanUp(h, created, after);
    if !ok {
      return OsFailed;
    }
    if raised != NotRaised {
      return;
    }
    ghost var installed := h.row;
    ok := FinishExport(h, if complete then Completed else Incomplete, left);
    raised := if ok then NotRaised else OsFailed;
    SettledAs(if complete then Completed else Incomplete, installed.files, left);
    if quiet {
      DoneIsFinished(plan, after, h.fs, row, installed, created);
    }
  }

  /** The `finally` of `_install`: the created directories are journalled, then the staging directory goes. */
  method CleanUp(h: Host, created: seq<Path>, ghost plan: Plan) returns (ok: bool, left: bool)
    requires h.Valid() && h.ours.Some?
    modifies h`fs, h`checkout, h`turns, h`alive, h`steps, h`row
    ensures h.Valid()
    ensures old(h.Quiet()) ==> h.Quiet()
    ensures h.row == old(h.row) || h.row == old(h.row).(createdDirectories := set p | p in created)
    ensures old(h.OnCourse(plan, map[])) && (forall k: nat :: Staged(old(h.World()), k) ==> k in h.moved) ==>
              && ok && !left && h.Quiet() && Laid(plan, h.fs) && plan.staging !in Entries(h.fs, plan.root)
              && h.row.createdDirectories == if created == [] then old(h.row).createdDirectories else set p | p in created
  {
    hide Host.Valid, Course, Laid;
    ghost var w := h.World();
    ok := true;
    if created != [] {
      ok := h.WriteRow(h.row.(createdDirectories := set p | p in created));
      if old(h.OnCourse(plan, map[])) {
        h.CourseKept(w, plan);
      }
      if !ok {
        return false, true;
      }
    }
    left := CleanStaging(h, plan);
  }

  /** Some file's outcome could not be established. */
  ghost predicate LeftOpen(files: seq<FileRow>) {
    exists f <- files :: f.outcome == Unknown
  }

  /** A run settles as unresolved if an outcome is unknown, or if it could not say what happened; a completed one had everything delivered. */
  lemma SettledAs(claimed: State, files: seq<FileRow>, left: bool)
    requires claimed != Running
    ensures FinishState(claimed, files, left) != Running
    ensures FinishState(claimed, files, left) == Unresolved <==> claimed == Unresolved || LeftOpen(files)
    ensures FinishState(claimed, files, left) == Completed ==> claimed == Completed && AllDelivered(files)
    ensures (forall k: nat :: k < |files| ==> files[k].outcome == Pending) && claimed == Incomplete ==> FinishState(claimed, files, left) == Incomplete
  {
    if exists f <- files :: f.outcome == Unknown {
      var f :| f in files && f.outcome == Unknown;
      var k :| 0 <= k < |files| && files[k] == f;
      assert HasUnknown(files);
    }
    if HasUnknown(files) {
      var k :| 0 <= k < |files| && files[k].outcome == Unknown;
      assert files[k] in files;
    }
  }

  /** What an undisturbed run needs: the preview still holds, and the bytes to write are the approved ones. */
  ghost predicate Starts(plan: Plan, start: FS, row: Export, contents: seq<ByteString>) {
    && plan == Plan(start, row.root, row.stagingName, {}, map[]) && Laid(plan, start)
    && Planned(start, row) && ApprovedBytes(row, contents)
    && row.createdDirectories == {}
  }

  /** The outcome of an undisturbed run: everything delivered, and the tree is the old one with exactly what was approved. */
  ghost predicate Finished(start: FS, fs: FS, files: seq<FileRow>, row: Export) {
    && row.state == Completed && AllDelivered(row.files)
    && row.stagingName !in Entries(fs, row.root)
    && Complete(start, fs, row.root, files)
    && forall p :: p in row.createdDirectories <==> NeededDir(start, row.root, files, |files|, p)
  }

  lemma DoneIsFinished(plan: Plan, after: Plan, fs: FS, before: Export, row: Export, created: seq<Path>)
    requires after.start == plan.start && plan.root == after.root == before.root == row.root
    requires after.staging == before.stagingName == row.stagingName
    requires Laid(after, fs) && MadeFor(after, before.files, |before.files|) && Planned(plan.start, before)
    requires after.staging !in Entries(fs, after.root) && after.staging != "" && after.staging[0] == '.'
    requires AllDelivered(row.files) && forall p :: p in created <==> p in after.dirs
    requires row.createdDirectories == if created == [] then {} else set p | p in created
    ensures Finished(plan.start, fs, before.files, row.(state := FinishState(Completed, row.files, false)))
  {
    hide Laid, Complete, NeededDir;
    LaidIsComplete(after, fs, before.files);
  }

  /** `_run_export`: owns the installation from staging to settlement. `stop` is how the installation ended: a refusal settles as incomplete, and an unexpected failure as unresolved. */
  method RunExport(h: Host, contents: seq<ByteString>) returns (ghost stop: Raised)
    requires h.Valid() && h.ours.None? && |contents| == |h.row.files| && Admitted(h.row)
    modifies h`fs, h`checkout, h`turns, h`alive, h`ours, h`intact, h`mine, h`moved, h`steps, h`row
    ensures h.Valid() && SameApproval(old(h.row), h.row) && NothingDenied(h.row, h.moved)
    ensures !h.supportsNoReplace ==> h.moved == old(h.moved)
    ensures old(h.Quiet()) ==> h.Quiet() && h.row.state != Running
    ensures old(h.Quiet()) ==>
              && (h.row.state == Completed ==> stop == NotRaised && AllDelivered(h.row.files))
              && (h.row.state == Unresolved <==> stop == OsFailed || LeftOpen(h.row.files))
    ensures !h.supportsNoReplace ==> stop != NotRaised
    ensures old(h.Quiet()) && old(h.checkout) != Some(old(h.row).root) ==> stop == ExportRefused && h.row == old(h.row).(state := Incomplete)
    ensures old(h.Quiet()) && h.supportsNoReplace && old(h.checkout) == Some(old(h.row).root)
            && Tree(old(h.fs), old(h.row).root) && Planned(old(h.fs), old(h.row)) && ApprovedBytes(old(h.row), contents)
            && old(h.row).createdDirectories == {} ==>
              Finished(old(h.fs), h.fs, old(h.row).files, h.row)
  {
    AdmittedPending(h.row);
    hide Host.Valid, Host.OnCourse, Planned, Laid, Finished, Tree, Admitted, LeftOpen, FinishState, ApprovedBytes, AllDelivered;
    h.NothingMovedYet();
    ghost var plan := Plan(h.fs, h.row.root, h.row.stagingName, {}, map[]);
    if Tree(h.fs, h.row.root) {
      LaidAtStart(h.fs, h.row.root, h.row.stagingName);
    }
    if Planned(h.fs, h.row) {
      PlannedRoot(h.fs, h.row);
    }
    var ok := h.WriteRow(h.row);
    var raised := OsFailed;
    if ok {
      raised := Install(h, contents, plan);
    }
    stop := raised;
    if raised != NotRaised {
      Settle(h, raised);
    }
  }

  /** A refusal settles the export as incomplete, an unexpected failure as unresolved. */
  method Settle(h: Host, raised: Raised)
    requires h.Valid() && raised != NotRaised
    modifies h`fs, h`checkout, h`turns, h`alive, h`row
    ensures h.Valid() && SameApproval(old(h.row), h.row) && h.row.files == old(h.row).files
    ensures old(h.Quiet()) ==> h.Quiet() && h.row == old(h.row).(state := h.row.state) && h.row.state in {Incomplete, Unresolved}
    ensures old(h.Quiet()) ==> (h.row.state == Unresolved <==> raised == OsFailed || LeftOpen(h.row.files))
    ensures old(h.Quiet()) && raised == ExportRefused && (forall k: nat :: k < |h.row.files| ==> h.row.files[k].outcome == Pending) ==> h.row.state == Incomplete
  {
    hide Host.Valid, LeftOpen, FinishState;
    SettledAs(if raised == ExportRefused then Incomplete else Unresolved, h.row.files, false);
    var _ := FinishExport(h, if raised == ExportRefused then Incomplete else Unresolved, false);
  }

  lemma AdmittedPending(row: Export)
    requires Admitted(row)
    ensures forall k: nat :: k < |row.files| ==> row.files[k].outcome == Pending
  {
  }

  lemma PlannedRoot(start: FS, row: Export)
    requires Planned(start, row)
    ensures IsDir(start, row.root) && row.stagingName !in Entries(start, row.root)
  {
  }

  // ----- Recovery -----

  /** The destination of a staged file is a directory: opening it succeeds and reading it raises. */
  predicate Stuck(fs: FS, row: Export, k: nat) {
    k < |row.files| && row.files[k].staged.Some? &&
    (var parent := DescendIn(fs, row.root, row.files[k].destination, 0, Device(fs, row.root));
     parent.Ok? &&
     (var found := Open(fs, parent.value, Base(row.files[k].destination));
      found.Ok? && IsDir(fs, found.value)))
  }

  /** The staged inode is at the destination. */
  predicate InPlace(fs: FS, row: Export, k: nat)
    requires k < |row.files|
  {
    var parent := DescendIn(fs, row.root, row.files[k].destination, 0, Device(fs, row.root));
    row.files[k].staged.Some? && parent.Ok? && Open(fs, parent.value, Base(row.files[k].destination)) == Ok(row.files[k].staged.value)
  }

  /** Nothing is at the destination, or at one of its ancestors. */
  predicate NothingThere(fs: FS, row: Export, k: nat)
    requires k < |row.files|
  {
    var parent := DescendIn(fs, row.root, row.files[k].destination, 0, Device(fs, row.root));
    parent == Err(Missing) || (parent.Ok? && Open(fs, parent.value, Base(row.files[k].destination)) == Err(Missing))
  }

  /** What an observation in an unchanging checkout says: created exactly when the staged inode is in place, not installed exactly when nothing is there or nothing was staged, unknown otherwise. */
  ghost predicate Established(fs: FS, row: Export, k: nat, o: Outcome) {
    && k < |row.files| && o in {Created, NotInstalled, Unknown}
    && (if row.files[k].staged.None? then o == NotInstalled
        else (o == Created <==> InPlace(fs, row, k)) && (o == NotInstalled <==> NothingThere(fs, row, k)))
  }

  lemma {:induction false} DescendWalks(fs: FS, d: Ino, p: Path, m: nat, device: nat)
    requires m < |p|
    ensures var parent := DescendIn(fs, d, p, m, device);
            && (parent.Ok? ==> Walk(fs, d, p[m..|p| - 1]) == Some(parent.value))
            && (parent == Err(Missing) ==> Walk(fs, d, p[m..|p| - 1]).None?)
    decreases |p| - m
  {
    if m < |p| - 1 {
      var (next, refused) := OpenChildIn(fs, d, p[m], device);
      assert p[m..|p| - 1][1..] == p[m + 1..|p| - 1];
      if next.Ok? {
        DescendWalks(fs, next.value, p, m + 1, device);
      } else if p[m] in Entries(fs, d) {
        assert next.errno == Other;
      }
    }
  }

  /** What is established agrees with where the destination leads. */
  lemma EstablishedMeans(fs: FS, row: Export, k: nat)
    requires k < |row.files| && row.files[k].destination != []
    ensures InPlace(fs, row, k) ==> Walk(fs, row.root, row.files[k].destination) == row.files[k].staged
    ensures NothingThere(fs, row, k) ==> Walk(fs, row.root, row.files[k].destination).None?
  {
    var p := row.files[k].destination;
    DescendWalks(fs, row.root, p, 0, Device(fs, row.root));
    var parent := p[0..|p| - 1];
    assert p == parent + [Base(p)];
    WalkStep(fs, row.root, parent, Base(p));
    hide Walk;
  }

  /** `_observe_effect`: what can be established about one destination without writing anything. */
  method ObserveEffect(h: Host, k: nat) returns (outcome: Outcome, raised: Raised, ghost states: seq<FS>)
    requires h.Valid() && k < |h.row.files|
    modifies h`fs, h`checkout, h`turns, h`alive
    ensures h.Valid()
    ensures outcome in {Created, NotInstalled, Unknown}
    ensures outcome == Created ==> k in h.moved
    ensures Trail(states, old(h.fs), h.fs, h.ours, h.mine)
    ensures outcome == NotInstalled && h.row.files[k].staged.Some? ==> SeenMissing(states, h.row.root, h.row.files[k].destination)
    ensures h.row.files[k].staged.None? ==> raised == NotRaised && outcome == NotInstalled && k !in h.moved
    ensures old(h.Quiet()) ==> h.Quiet() && h.fs == old(h.fs) && (raised == NotRaised <==> !Stuck(h.fs, h.row, k))
    ensures old(h.Quiet()) && raised == NotRaised ==> Established(h.fs, h.row, k, outcome)
  {
    hide Host.Valid, DescendIn, Trail, Opened, SeenMissing, OthersMay;
    h.Names();
    h.Meaning();
    raised := NotRaised;
    states := [h.fs];
    TrailStarts(h.fs, h.ours, h.mine);
    if h.row.files[k].staged.None? {
      return NotInstalled, NotRaised, states;
    }
    var parent;
    parent, states := Descend(h, h.row.files[k].destination, Plan(h.fs, h.row.root, h.row.stagingName, {}, map[]));
    if parent.Err? {
      return if parent.errno == Missing then NotInstalled else Unknown, NotRaised, states;
    }
    ghost var before := h.fs;
    var found, data := h.OpenEntry(parent.value, Base(h.row.files[k].destination));
    states := EntrySought(states, old(h.fs), before, h.fs, h.ours, h.mine, h.row.root, h.row.files[k].destination, parent.value, found);
    if found.Err? {
      return if found.errno == Missing then NotInstalled else Unknown, NotRaised, states;
    }
    if h.fs.nodes[found.value].Dir? {
      return Unknown, OsFailed, states;
    }
    if h.row.files[k].staged == Some(found.value) {
      h.FoundIsMoved(k, parent.value, Base(h.row.files[k].destination));
      return Created, NotRaised, states;
    }
    outcome := Unknown;
  }

  lemma EntrySought(states: seq<FS>, first: FS, before: FS, after: FS, ours: Option<Ino>, mine: set<Ino>, root: Ino, p: Path, d: Ino, found: Result<Ino>)
    returns (more: seq<FS>)
    requires Trail(states, first, before, ours, mine) && OthersMay(before, after, ours, mine)
    requires p != [] && Opened(states, root, ParentOf(p), d) && (found == Err(Missing) ==> Base(p) !in Entries(after, d))
    ensures Trail(more, first, after, ours, mine)
    ensures found == Err(Missing) ==> SeenMissing(more, root, p)
  {
    hide Trail, OthersMay, Opened;
    TrailNext(states, first, before, after, ours, mine);
    more := states + [after];
    OpenedLonger(states, more, root, ParentOf(p), d);
    assert ParentOf(p) == p[..|p| - 1] && Base(p) == p[|p| - 1];
    assert after in more;
  }

  /** Observes the files of `which`, without journalling anything yet. */
  method ObserveAll(h: Host, which: set<nat>) returns (outcomes: map<nat, Outcome>, raised: Raised, ghost states: seq<FS>)
    requires h.Valid() && forall k: nat :: k in which ==> k < |h.row.files|
    modifies h`fs, h`checkout, h`turns, h`alive
    ensures h.Valid() && outcomes.Keys <= which && (raised == NotRaised ==> outcomes.Keys == which)
    ensures forall k: nat :: k in outcomes ==> outcomes[k] in {Created, NotInstalled, Unknown}
    ensures forall k: nat :: k in outcomes && outcomes[k] == Created ==> k in h.moved
    ensures Trail(states, old(h.fs), h.fs, h.ours, h.mine) && DeniedOnSight(states, h.row, outcomes)
    ensures old(h.Quiet()) ==> h.Quiet() && (raised == NotRaised <==> forall k: nat :: k in which ==> !Stuck(old(h.fs), h.row, k))
    ensures old(h.Quiet()) && raised == NotRaised ==> forall k: nat :: k in which ==> Established(old(h.fs), h.row, k, outcomes[k])
  {
    hide Host.Valid, Stuck, Established, Trail, SeenMissing, DeniedOnSight;
    ghost var quiet, fs := h.Quiet(), h.fs;
    outcomes := map[];
    raised := NotRaised;
    states := [h.fs];
    TrailStarts(h.fs, h.ours, h.mine);
    NobodyDenied(states, h.row);
    var k := 0;
    while k < |h.row.files|
      invariant 0 <= k <= |h.row.files| && h.Valid()
      invariant outcomes.Keys == set j | j in which && j < k
      invariant forall j: nat :: j in outcomes ==> outcomes[j] in {Created, NotInstalled, Unknown}
      invariant forall j: nat :: j in outcomes && outcomes[j] == Created ==> j in h.moved
      invariant raised == NotRaised
      invariant quiet ==> h.Quiet() && h.fs == fs && forall j: nat :: j in which && j < k ==> !Stuck(fs, h.row, j)
      invariant quiet ==> forall j: nat :: j in outcomes ==> Established(fs, h.row, j, outcomes[j])
      invariant Trail(states, old(h.fs), h.fs, h.ours, h.mine) && DeniedOnSight(states, h.row, outcomes)
    {
      if k in which {
        var outcome;
        ghost var before, more := h.fs, [];
        outcome, raised, more := ObserveEffect(h, k);
        states := OneMoreSeen(states, more, old(h.fs), before, h.fs, h.ours, h.mine, h.row, outcomes, k, outcome);
        if raised != NotRaised {
          return;
        }
        outcomes := outcomes[k := outcome];
      }
      k := k + 1;
    }
    assert outcomes.Keys == which;
  }

  /** A staged file is reported as not installed only if its destination was looked for and not there. */
  ghost predicate DeniedOnSight(states: seq<FS>, row: Export, outcomes: map<nat, Outcome>) {
    forall k: nat :: k in outcomes && k < |row.files| && outcomes[k] == NotInstalled && row.files[k].staged.Some? ==>
      SeenMissing(states, row.root, row.files[k].destination)
  }

  lemma NobodyDenied(states: seq<FS>, row: Export)
    ensures DeniedOnSight(states, row, map[])
  {
  }

  lemma OneMoreSeen(states: seq<FS>, more: seq<FS>, first: FS, before: FS, after: FS, ours: Option<Ino>, mine: set<Ino>,
                    row: Export, outcomes: map<nat, Outcome>, k: nat, outcome: Outcome)
    returns (all: seq<FS>)
    requires Trail(states, first, before, ours, mine) && Trail(more, before, after, ours, mine)
    requires DeniedOnSight(states, row, outcomes) && k < |row.files|
    requires outcome == NotInstalled && row.files[k].staged.Some? ==> SeenMissing(more, row.root, row.files[k].destination)
    ensures Trail(all, first, after, ours, mine) && DeniedOnSight(all, row, outcomes[k := outcome]) && DeniedOnSight(all, row, outcomes)
  {
    TrailOn(states, more, first, before, after, ours, mine);
    all := states + more[1..];
    BothSeen(states, more);
    hide Trail, SeenMissing;
    DeniedLonger(states, all, row, outcomes);
    if outcome == NotInstalled && row.files[k].staged.Some? {
      MissingLonger(more, all, row.root, row.files[k].destination);
    }
  }

  /** What a look at the destinations, or the failure to open the checkout, may leave in the row. */
  ghost predicate RecordedOnSight(states: seq<FS>, before: Export, after: Export) {
    forall k: nat :: k < |before.files| && k < |after.files| && !Settled(before.files[k].outcome) && before.files[k].staged.Some?
                     && after.files[k].outcome == NotInstalled ==>
      SeenMissing(states, before.root, before.files[k].destination)
  }

  lemma ReportedOnSight(states: seq<FS>, row: Export, outcomes: map<nat, Outcome>, state: State)
    requires DeniedOnSight(states, row, outcomes)
    ensures RecordedOnSight(states, row, WithOutcomes(row, outcomes, state))
  {
    assert forall k: nat :: k < |row.files| && k !in outcomes ==> WithOutcomes(row, outcomes, state).files[k] == row.files[k];
  }

  /** What is reported when the checkout cannot be opened: nothing is known of a file that was staged, and one that was not was never installed. */
  ghost predicate Uninspected(before: Export, after: Export) {
    && (forall k: nat :: k < |before.files| && k < |after.files| && before.files[k].outcome == Pending ==>
          after.files[k].outcome == if before.files[k].staged.None? then NotInstalled else Unknown)
    && ((exists k: nat :: k < |before.files| && before.files[k].outcome == Pending && before.files[k].staged.Some?) ==> after.state == Unresolved)
  }

  function FilesWith(files: seq<FileRow>, unknownToo: bool): (which: set<nat>)
    ensures forall k: nat :: k in which <==> k < |files| && (files[k].outcome == Pending || (unknownToo && files[k].outcome == Unknown))
  {
    set k: nat | k < |files| && (files[k].outcome == Pending || (unknownToo && files[k].outcome == Unknown))
  }

  /** What a re-observation may do to the journal: settled outcomes stay, the others become established or unknown, and the state is the one the outcomes imply. */
  ghost predicate Reobserved(a: Export, b: Export) {
    && SameApproval(a, b) && SameStaged(a, b)
    && (forall k: nat :: k < |a.files| && Settled(a.files[k].outcome) ==> b.files[k].outcome == a.files[k].outcome)
    && (forall k: nat :: k < |a.files| && b.files[k].outcome != a.files[k].outcome ==>
          b.files[k].outcome in {Created, NotInstalled, Unknown})
    && b.state == ClassifyState(b.files)
  }

  lemma ReobservedRow(row: Export, outcomes: map<nat, Outcome>)
    requires forall k: nat :: k in outcomes ==>
               k < |row.files| && !Settled(row.files[k].outcome) && outcomes[k] in {Created, NotInstalled, Unknown}
    ensures Reobserved(row, WithOutcomes(row, outcomes, ClassifyState(WithOutcomes(row, outcomes, Running).files)))
  {
    assert WithOutcomes(row, outcomes, ClassifyState(WithOutcomes(row, outcomes, Running).files)).files
        == WithOutcomes(row, outcomes, Running).files;
  }

  /** `reconcile`: what a stopped daemon left is classified, never repeated. */
  method Reconcile(h: Host) returns (raised: Raised, ghost states: seq<FS>)
    requires h.Valid()
    modifies h`fs, h`checkout, h`turns, h`alive, h`row
    ensures h.Valid()
    ensures if raised == NotRaised then Reobserved(old(h.row), h.row) else h.row == old(h.row)
    ensures raised == NotRaised ==> forall k: nat :: k < |h.row.files| ==> h.row.files[k].outcome != Pending
    ensures raised == NotRaised ==> Trail(states, old(h.fs), h.fs, h.ours, h.mine) && RecordedOnSight(states, old(h.row), h.row)
    ensures old(h.Quiet()) && old(h.checkout) != Some(old(h.row).root) ==> raised == NotRaised && Uninspected(old(h.row), h.row)
    ensures old(h.Quiet()) && old(h.checkout) == Some(old(h.row).root) ==>
              (raised == NotRaised <==>
                 forall k: nat :: k < |h.row.files| && old(h.row).files[k].outcome == Pending ==> !Stuck(old(h.fs), old(h.row), k))
    ensures old(h.Quiet()) && old(h.checkout) == Some(old(h.row).root) && raised == NotRaised ==>
              forall k: nat :: k < |h.row.files| && old(h.row).files[k].outcome == Pending ==>
                Established(old(h.fs), old(h.row), k, h.row.files[k].outcome)
  {
    hide Host.Valid, Stuck, Established, Trail, DeniedOnSight, RecordedOnSight, OthersMay, Uninspected;
    ghost var alone := h.Quiet() && h.checkout != Some(h.row.root);
    var pending := FilesWith(h.row.files, false);
    var outcomes;
    outcomes, raised, states := LookAgain(h, pending);
    if raised != NotRaised {
      return;
    }
    ghost var before := h.fs;
    ReobservedRow(h.row, outcomes);
    if alone {
      UninspectedRow(h.row, outcomes);
    }
    var ok := h.RecordReconciliation(outcomes, ClassifyState(WithOutcomes(h.row, outcomes, Running).files));
    states := Afterwards(states, old(h.fs), before, h.fs, h.ours, h.mine, old(h.row), outcomes);
    ReportedOnSight(states, old(h.row), outcomes, h.row.state);
    raised := if ok then NotRaised else OsFailed;
  }

  /** What `reconcile` reports of the pending files: what a look at each says, or, if the checkout cannot be opened as it was approved, that nothing is known of those that were staged. */
  method LookAgain(h: Host, pending: set<nat>) returns (outcomes: map<nat, Outcome>, raised: Raised, ghost states: seq<FS>)
    requires h.Valid() && forall k: nat :: k in pending ==> k < |h.row.files|
    modifies h`fs, h`checkout, h`turns, h`alive
    ensures h.Valid() && (raised == NotRaised ==> outcomes.Keys == pending)
    ensures forall k: nat :: k in outcomes ==> outcomes[k] in {Created, NotInstalled, Unknown}
    ensures forall k: nat :: k in outcomes && outcomes[k] == Created ==> k in h.moved
    ensures Trail(states, old(h.fs), h.fs, h.ours, h.mine) && DeniedOnSight(states, h.row, outcomes)
    ensures old(h.Quiet()) ==> h.Quiet()
    ensures old(h.Quiet()) && old(h.checkout) != Some(h.row.root) ==>
              raised == NotRaised && forall k: nat :: k in outcomes ==> outcomes[k] == if h.row.files[k].staged.None? then NotInstalled else Unknown
    ensures old(h.Quiet()) && old(h.checkout) == Some(h.row.root) ==> (raised == NotRaised <==> forall k: nat :: k in pending ==> !Stuck(old(h.fs), h.row, k))
    ensures old(h.Quiet()) && old(h.checkout) == Some(h.row.root) && raised == NotRaised ==>
              forall k: nat :: k in pending ==> Established(old(h.fs), h.row, k, outcomes[k])
  {
    hide Host.Valid, Stuck, Established, Trail, DeniedOnSight, OthersMay;
    outcomes, raised, states := map[], NotRaised, [h.fs];
    TrailStarts(h.fs, h.ours, h.mine);
    NobodyDenied(states, h.row);
    if pending == {} {
      return;
    }
    var root := h.ReopenRoot();
    states := Afterwards(states, old(h.fs), old(h.fs), h.fs, h.ours, h.mine, h.row, outcomes);
    if root.Err? {
      outcomes := map k | k in pending :: if h.row.files[k].staged.None? then NotInstalled else Unknown;
      NobodyStagedDenied(states, h.row, outcomes);
      return;
    }
    ghost var before, more := h.fs, [];
    outcomes, raised, more := ObserveAll(h, pending);
    states := SeenOn(states, more, old(h.fs), before, h.fs, h.ours, h.mine, h.row, outcomes);
  }

  lemma UninspectedRow(row: Export, outcomes: map<nat, Outcome>)
    requires outcomes.Keys == FilesWith(row.files, false)
    requires forall k: nat :: k in outcomes ==> outcomes[k] == if row.files[k].staged.None? then NotInstalled else Unknown
    ensures Uninspected(row, WithOutcomes(row, outcomes, ClassifyState(WithOutcomes(row, outcomes, Running).files)))
  {
    var files := WithOutcomes(row, outcomes, Running).files;
    if k: nat :| k < |row.files| && row.files[k].outcome == Pending && row.files[k].staged.Some? {
      assert files[k].outcome == Unknown;
    }
  }

  lemma NobodyStagedDenied(states: seq<FS>, row: Export, outcomes: map<nat, Outcome>)
    requires forall k: nat :: k in outcomes && k < |row.files| && row.files[k].staged.Some? ==> outcomes[k] != NotInstalled
    ensures DeniedOnSight(states, row, outcomes)
  {
  }

  /** One more turn of others. */
  lemma Afterwards(states: seq<FS>, first: FS, before: FS, after: FS, ours: Option<Ino>, mine: set<Ino>, row: Export, outcomes: map<nat, Outcome>)
    returns (all: seq<FS>)
    requires Trail(states, first, before, ours, mine) && OthersMay(before, after, ours, mine) && DeniedOnSight(states, row, outcomes)
    ensures Trail(all, first, after, ours, mine) && DeniedOnSight(all, row, outcomes)
  {
    hide Trail, OthersMay, SeenMissing;
    TrailNext(states, first, before, after, ours, mine);
    all := states + [after];
    DeniedLonger(states, all, row, outcomes);
  }

  lemma SeenOn(states: seq<FS>, more: seq<FS>, first: FS, before: FS, after: FS, ours: Option<Ino>, mine: set<Ino>, row: Export, outcomes: map<nat, Outcome>)
    returns (all: seq<FS>)
    requires Trail(states, first, before, ours, mine) && Trail(more, before, after, ours, mine) && DeniedOnSight(more, row, outcomes)
    ensures Trail(all, first, after, ours, mine) && DeniedOnSight(all, row, outcomes)
  {
    TrailOn(states, more, first, before, after, ours, mine);
    all := states + more[1..];
    BothSeen(states, more);
    DeniedLonger(more, all, row, outcomes);
  }

  lemma BothSeen(a: seq<FS>, b: seq<FS>)
    requires a != [] && b != [] && b[0] == a[|a| - 1]
    ensures forall fs <- a :: fs in a + b[1..]
    ensures forall fs <- b :: fs in a + b[1..]
  {
    assert forall i: nat :: 0 < i < |b| ==> b[i] == (a + b[1..])[|a| + i - 1];
  }

  lemma DeniedLonger(a: seq<FS>, b: seq<FS>, row: Export, outcomes: map<nat, Outcome>)
    requires DeniedOnSight(a, row, outcomes) && forall fs <- a :: fs in b
    ensures DeniedOnSight(b, row, outcomes)
  {
    forall k: nat | k in outcomes && k < |row.files| && outcomes[k] == NotInstalled && row.files[k].staged.Some?
      ensures SeenMissing(b, row.root, row.files[k].destination)
    {
      MissingLonger(a, b, row.root, row.files[k].destination);
    }
  }

  /** `recheck`: the same observation again for what is still uncertain; refuses when there is nothing to do. */
  method Recheck(h: Host) returns (raised: Raised, ghost states: seq<FS>)
    requires h.Valid()
    modifies h`fs, h`checkout, h`turns, h`alive, h`row
    ensures h.Valid()
    ensures if raised == NotRaised then Reobserved(old(h.row), h.row) else h.row == old(h.row)
    ensures raised == NotRaised ==> old(h.row).state in {Unresolved, Incomplete} && !forall f <- old(h.row).files :: Settled(f.outcome)
    ensures raised == NotRaised ==> Trail(states, old(h.fs), h.fs, h.ours, h.mine) && RecordedOnSight(states, old(h.row), h.row)
    ensures old(h.Quiet()) && old(h.checkout) != Some(old(h.row).root) ==> raised == ExportRefused
    ensures old(h.Quiet()) && old(h.checkout) == Some(old(h.row).root) ==>
              (raised == NotRaised <==>
                 && old(h.row).state in {Unresolved, Incomplete} && !(forall f <- old(h.row).files :: Settled(f.outcome))
                 && forall k: nat :: k < |h.row.files| && !Settled(old(h.row).files[k].outcome) ==> !Stuck(old(h.fs), old(h.row), k))
    ensures old(h.Quiet()) && old(h.checkout) == Some(old(h.row).root) && raised == NotRaised ==>
              forall k: nat :: k < |h.row.files| && !Settled(old(h.row).files[k].outcome) ==>
                Established(old(h.fs), old(h.row), k, h.row.files[k].outcome)
  {
    hide Host.Valid, Stuck, Established, Trail, DeniedOnSight, RecordedOnSight, OthersMay;
    var uncertain := FilesWith(h.row.files, true);
    states := [h.fs];
    TrailStarts(h.fs, h.ours, h.mine);
    NobodyDenied(states, h.row);
    if h.row.state !in {Unresolved, Incomplete} || uncertain == {} {
      return ExportRefused, states;
    }
    assert exists k: nat :: k in uncertain && !Settled(h.row.files[k].outcome) && h.row.files[k] in h.row.files by {
      var k :| k in uncertain;
    }
    var root := h.ReopenRoot();
    states := Afterwards(states, old(h.fs), old(h.fs), h.fs, h.ours, h.mine, h.row, map[]);
    if root.Err? {
      return ExportRefused, states;
    }
    var outcomes;
    ghost var before, more := h.fs, [];
    outcomes, raised, more := ObserveAll(h, uncertain);
    states := SeenOn(states, more, old(h.fs), before, h.fs, h.ours, h.mine, h.row, outcomes);
    if raised != NotRaised {
      return;
    }
    before := h.fs;
    ReobservedRow(h.row, outcomes);
    var ok := h.RecordReconciliation(outcomes, ClassifyState(WithOutcomes(h.row, outcomes, Running).files));
    states := Afterwards(states, old(h.fs), before, h.fs, h.ours, h.mine, old(h.row), outcomes);
    ReportedOnSight(states, old(h.row), outcomes, h.row.state);
    raised := if ok then NotRaised else OsFailed;
  }

  /** `acknowledge_export`: closes an unresolved export without touching its outcomes. */
  method Acknowledge(h: Host) returns (ok: bool)
    requires h.Valid()
    modifies h`fs, h`checkout, h`turns, h`alive, h`row
    ensures h.Valid()
    ensures h.row == if ok then old(h.row).(state := Incomplete) else old(h.row)
    ensures ok ==> old(h.row).state == Unresolved
    ensures h.fs == old(h.fs) || OthersMay(old(h.fs), h.fs, h.ours, h.mine)
    ensures old(h.Quiet()) ==> h.Quiet() && h.fs == old(h.fs) && (ok <==> old(h.row).state == Unresolved)
  {
    hide Host.Valid, OthersMay;
    if h.row.state != Unresolved {
      return false;
    }
    ok := h.WriteRow(h.row.(state := Incomplete));
  }

  // ----- A whole life -----

  datatype Pass = ReconcilePass | RecheckPass | AcknowledgePass | RestartPass

  /** One export run, cut anywhere by a crash, and then any number of restarts and recovery passes, with everybody else acting before every call: the invariant holds at the end, so `created` is recorded only for files this export moved itself, and nothing it never journalled as staged was moved; and every step it took was create-only, exactly unless it removed something of others that stood in the directory it opened for staging, or under the staging name at the very end. */
  method Lifetime(h: Host, contents: seq<ByteString>, passes: seq<Pass>)
    requires h.Valid() && h.ours.None? && h.steps == [] && |contents| == |h.row.files| && Admitted(h.row)
    modifies h
    ensures h.Valid() && SameApproval(old(h.row), h.row)
    ensures forall k: nat :: k < |h.row.files| && h.row.files[k].outcome == Created ==>
              && k in h.moved && h.moved[k].data == h.row.files[k].expected
              && Some(h.moved[k].ino) == h.row.files[k].staged
              && h.moved[k].name == Base(h.row.files[k].destination)
    ensures forall k: nat :: k in h.moved ==> k < |h.row.files| && RightPlace(h.row, h.row.files[k].destination, h.moved[k].dir)
    ensures forall k: nat :: k < |h.row.files| && h.row.files[k].staged.None? ==> k !in h.moved
    ensures forall s <- h.steps :: CreateOnlyStep(s) <==> !TakesEntry(s.before, s.after) && !TakesDirectory(s.before, s.after)
    ensures h.intact ==> forall s <- h.steps :: !TakesEntry(s.before, s.after)
  {
    hide Host.Valid;
    var _ := RunExport(h, contents);
    for i := 0 to |passes|
      invariant h.Valid() && SameApproval(old(h.row), h.row)
    {
      match passes[i]
      case ReconcilePass => var _, _ := Reconcile(h);
      case RecheckPass => var _, _ := Recheck(h);
      case AcknowledgePass => var _ := Acknowledge(h);
      case RestartPass => h.Restart();
    }
    h.Meaning();
  }
}
