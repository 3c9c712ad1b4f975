/** Several passes over one export at a time: what they can do to each other's outcomes, and what stays true of the checkout. */
module ExportClients {
  import opened Filesystem
  import opened ExportJournal
  import opened ExportSafety
  import opened ExportHost
  import opened ExportManager
  import opened ExportTrail
  import opened ExportRegistry
  import opened Wrappers

  // ----- One export, as its clients see it -----

  /** The outcomes of an export, one for each file. */
  function Shown(row: Export): (shown: seq<Outcome>)
    ensures |shown| == |row.files|
  {
    seq(|row.files|, k requires 0 <= k < |row.files| => row.files[k].outcome)
  }

  function Overlaid(shown: seq<Outcome>, outcomes: map<nat, Outcome>): seq<Outcome> {
    seq(|shown|, k requires 0 <= k < |shown| => if k in outcomes then outcomes[k] else shown[k])
  }

  function Implied(shown: seq<Outcome>): State {
    if Unknown in shown then Unresolved else if forall o <- shown :: Delivered(o) then Completed else Incomplete
  }

  lemma ImpliedIs(row: Export)
    ensures ClassifyState(row.files) == Implied(Shown(row))
  {
    var shown := Shown(row);
    if k :| 0 <= k < |row.files| && row.files[k].outcome == Unknown {
      assert shown[k] in shown;
    }
    if !AllDelivered(row.files) {
      var k :| 0 <= k < |row.files| && !Delivered(row.files[k].outcome);
      assert shown[k] in shown;
    }
  }

  lemma ConcludedShows(now: Export, p: Reading, outcomes: map<nat, Outcome>)
    ensures Shown(Concluded(now, p, outcomes)) == Overlaid(Shown(now), outcomes)
    ensures Concluded(now, p, outcomes).state == Implied(Overlaid(Shown(p.row), outcomes))
  {
    var read := WithOutcomes(p.row, outcomes, Running);
    assert Shown(read) == Overlaid(Shown(p.row), outcomes);
    ImpliedIs(read);
  }

  /** The only export in the table, with these outcomes and this state. */
  ghost predicate Shows(r: Registry, shown: seq<Outcome>, state: State)
    reads r
  {
    r.Valid() && r.rows.Keys == {0} && Shown(r.rows[0].row) == shown && r.rows[0].row.state == state
  }

  /** A pass under way, and the outcomes it read. */
  ghost predicate Reads(r: Registry, reader: Reader, shown: seq<Outcome>, recheck: bool)
    reads r
  {
    reader in r.readings && r.readings[reader].id == 0 && r.readings[reader].recheck == recheck && Shown(r.readings[reader].row) == shown
  }

  method Confirm(c: Confirmation, row: Export) returns (r: Registry)
    requires IsAdmitted(row)
    ensures fresh(r) && Shows(r, seq(|row.files|, _ => Pending), Running) && r.readings == map[]
  {
    r := new Registry();
    var _ := r.Admit(0, c, row);
    assert Shown(row) == seq(|row.files|, _ => Pending);
  }

  /** The installation stops without having recorded anything. */
  method Stop(r: Registry, claimed: State, shown: seq<Outcome>, state: State)
    requires Shows(r, shown, state) && Active(state) && Unknown !in shown && claimed != Running
    requires claimed == Completed ==> forall o <- shown :: Delivered(o)
    modifies r`rows
    ensures Shows(r, shown, claimed)
  {
    ImpliedIs(r.rows[0].row);
    hide Registry.Valid;
    var _ := r.Finish(0, claimed, false);
  }

  method Begins(r: Registry, reader: Reader, recheck: bool, shown: seq<Outcome>, state: State)
    requires Shows(r, shown, state) && reader !in r.readings
    requires if recheck then state in {Unresolved, Incomplete} && exists k :: 0 <= k < |shown| && !Settled(shown[k]) else state == Running
    modifies r`readings
    ensures Shows(r, shown, state) && Reads(r, reader, shown, recheck)
    ensures r.readings.Keys == old(r.readings).Keys + {reader}
    ensures forall other: Reader, read: seq<Outcome>, b: bool :: old(Reads(r, other, read, b)) ==> Reads(r, other, read, b)
  {
    if k :| 0 <= k < |shown| && !Settled(shown[k]) {
      assert r.rows[0].row.files[k] in r.rows[0].row.files && !Settled(r.rows[0].row.files[k].outcome);
    }
    hide Registry.Valid;
    var _ := r.Look(reader, 0, recheck);
  }

  method Ends(r: Registry, reader: Reader, outcomes: map<nat, Outcome>, read: seq<Outcome>, recheck: bool, shown: seq<Outcome>, state: State)
    requires Shows(r, shown, state) && Reads(r, reader, read, recheck) && |read| == |shown|
    requires forall k: nat :: k in outcomes <==> k < |read| && (read[k] == Pending || (recheck && read[k] == Unknown))
    requires forall k: nat :: k in outcomes ==> outcomes[k] in {Created, NotInstalled, Unknown}
    modifies r
    ensures Shows(r, Overlaid(shown, outcomes), Implied(Overlaid(read, outcomes))) && r.readings.Keys == old(r.readings).Keys - {reader}
    ensures forall other: Reader, s: seq<Outcome>, b: bool :: other != reader && old(Reads(r, other, s, b)) ==> Reads(r, other, s, b)
  {
    ConcludedShows(r.rows[0].row, r.readings[reader], outcomes);
    assert CanReport(r.readings[reader], outcomes);
    assert !Contended(r.rows, 0, r.rows[0].row);
    hide Registry.Valid, Concluded, Shown, Overlaid, Implied, CanReport;
    var _ := r.Conclude(reader, outcomes);
  }

  method Records(r: Registry, k: nat, o: Outcome, shown: seq<Outcome>, state: State)
    requires Shows(r, shown, state) && k < |shown|
    modifies r`rows
    ensures Shows(r, shown[k := o], state)
    ensures forall other: Reader, s: seq<Outcome>, b: bool :: old(Reads(r, other, s, b)) ==> Reads(r, other, s, b)
  {
    assert Shown(WithOutcome(r.rows[0].row, k, o)) == shown[k := o];
    hide Registry.Valid;
    var _ := r.RecordOutcome(0, k, o);
  }

  lemma ShowsMeans(r: Registry, shown: seq<Outcome>, state: State)
    requires Shows(r, shown, state)
    ensures 0 in r.rows && Shown(r.rows[0].row) == shown
  {
  }

  lemma OneFile(o: Outcome, p: Outcome)
    ensures Overlaid([o], map[0 := p]) == [p]
    ensures Implied([p]) == if p == Unknown then Unresolved else if Delivered(p) then Completed else Incomplete
  {
    assert p in [p];
  }

  lemma TwoFiles(a: Outcome, b: Outcome, p: Outcome, q: Outcome)
    ensures Overlaid([a, b], map[0 := p, 1 := q]) == [p, q] && Overlaid([a, b], map[1 := q]) == [a, q]
    ensures Implied([p, q]) == if p == Unknown || q == Unknown then Unresolved else if Delivered(p) && Delivered(q) then Completed else Incomplete
  {
    assert p in [p, q] && q in [p, q];
    assert [p, q][0] == p && [p, q][1] == q;
  }

  // ----- Passes that cross -----

  /** Two rechecks read the same uncertain file. The first finds it in place and records that; the file is deleted; the second, which looks then, records that it was not installed. */
  method TwoRechecksRevise(c: Confirmation, row: Export) returns (r: Registry, ghost between: Table)
    requires IsAdmitted(row) && |row.files| == 1
    ensures fresh(r) && 0 in between.rows && Shown(between.rows[0].row) == [Created] && Shows(r, [NotInstalled], Incomplete)
  {
    hide Overlaid, Implied, Shows, Reads;
    r := Confirm(c, row);
    assert seq(1, _ => Pending) == [Pending];
    Stop(r, Unresolved, [Pending], Running);
    assert !Settled([Pending][0]);
    Begins(r, 1, true, [Pending], Unresolved);
    Begins(r, 2, true, [Pending], Unresolved);
    OneFile(Pending, Created);
    Ends(r, 1, map[0 := Created], [Pending], true, [Pending], Unresolved);
    ShowsMeans(r, [Created], Completed);
    between := r.Now();
    OneFile(Pending, NotInstalled);
    OneFile(Created, NotInstalled);
    Ends(r, 2, map[0 := NotInstalled], [Pending], true, [Created], Completed);
  }

  /** A cancelled installation goes on in its thread while the shutdown settles the export: not installed is overwritten by created. */
  method InstallationOutlivesItsCancel(c: Confirmation, row: Export) returns (r: Registry, ghost between: Table)
    requires IsAdmitted(row) && |row.files| == 1
    ensures fresh(r) && 0 in between.rows && Shown(between.rows[0].row) == [NotInstalled] && Shows(r, [Created], Incomplete)
  {
    hide Overlaid, Implied, Shows, Reads;
    r := Confirm(c, row);
    assert seq(1, _ => Pending) == [Pending];
    Begins(r, 1, false, [Pending], Running);
    OneFile(Pending, NotInstalled);
    Ends(r, 1, map[0 := NotInstalled], [Pending], false, [Pending], Running);
    ShowsMeans(r, [NotInstalled], Incomplete);
    between := r.Now();
    Records(r, 0, Created, [NotInstalled], Incomplete);
    assert [NotInstalled][0 := Created] == [Created];
  }

  /** The same two the other way round: the settlement looked before the file was moved, and writes after the move was recorded. A file that was installed ends as not installed. */
  method SettlementComesLate(c: Confirmation, row: Export) returns (r: Registry, ghost between: Table)
    requires IsAdmitted(row) && |row.files| == 1
    ensures fresh(r) && 0 in between.rows && Shown(between.rows[0].row) == [Created] && Shows(r, [NotInstalled], Incomplete)
  {
    hide Overlaid, Implied, Shows, Reads;
    r := Confirm(c, row);
    assert seq(1, _ => Pending) == [Pending];
    Begins(r, 1, false, [Pending], Running);
    Records(r, 0, Created, [Pending], Running);
    assert [Pending][0 := Created] == [Created];
    ShowsMeans(r, [Created], Running);
    between := r.Now();
    OneFile(Pending, NotInstalled);
    OneFile(Created, NotInstalled);
    Ends(r, 1, map[0 := NotInstalled], [Pending], false, [Created], Running);
  }

  /** A recheck has found one of two files in place. Another, which read the export before that, is still under way, and a third has read it since. */
  method StaleRecheck(c: Confirmation, row: Export) returns (r: Registry)
    requires IsAdmitted(row) && |row.files| == 2
    ensures fresh(r) && Shows(r, [Created, Unknown], Unresolved)
    ensures Reads(r, 1, [Pending, Pending], true) && Reads(r, 3, [Created, Unknown], true)
  {
    hide Overlaid, Implied, Shows, Reads;
    r := Confirm(c, row);
    assert seq(2, _ => Pending) == [Pending, Pending];
    Stop(r, Unresolved, [Pending, Pending], Running);
    assert !Settled([Pending, Pending][0]) && !Settled([Created, Unknown][1]);
    Begins(r, 1, true, [Pending, Pending], Unresolved);
    Begins(r, 2, true, [Pending, Pending], Unresolved);
    TwoFiles(Pending, Pending, Created, Unknown);
    Ends(r, 2, map[0 := Created, 1 := Unknown], [Pending, Pending], true, [Pending, Pending], Unresolved);
    Begins(r, 3, true, [Created, Unknown], Unresolved);
  }

  /** The stale one ends, and then the last, whose state is computed from a record that has been overtaken: an export is completed although one of its files is recorded as not installed. */
  method CompletedWithoutAFile(c: Confirmation, row: Export) returns (r: Registry)
    requires IsAdmitted(row) && |row.files| == 2
    ensures fresh(r) && Shows(r, [NotInstalled, Created], Completed)
  {
    hide Overlaid, Implied, Shows, Reads;
    r := StaleRecheck(c, row);
    TwoFiles(Pending, Pending, NotInstalled, Unknown);
    TwoFiles(Created, Unknown, NotInstalled, Unknown);
    Ends(r, 1, map[0 := NotInstalled, 1 := Unknown], [Pending, Pending], true, [Created, Unknown], Unresolved);
    TwoFiles(NotInstalled, Unknown, NotInstalled, Created);
    TwoFiles(Created, Unknown, Created, Created);
    Ends(r, 3, map[1 := Created], [Created, Unknown], true, [NotInstalled, Unknown], Unresolved);
  }

  // ----- Passes over one checkout -----

  /** The host works on row `id` of the table, and nothing has been staged since a pass over it read the record. */
  ghost predicate Joined(h: Host, r: Registry, id: Id)
    reads h, r
  {
    && h.Valid() && r.Valid() && id in r.rows && r.rows[id].row == h.row
    && forall reader <- r.readings :: r.readings[reader].id == id ==> SameStaged(r.readings[reader].row, h.row)
  }

  /** What passes over export `id` have seen and not written yet: of files found in place, the ones this export moved. */
  ghost predicate Seen(h: Host, r: Registry, id: Id, seen: map<Reader, map<nat, Outcome>>)
    reads h, r
  {
    forall reader <- seen :: reader in r.readings && r.readings[reader].id == id && Truthful(h.moved, r.readings[reader], seen[reader])
  }

  ghost predicate Truthful(moved: map<nat, Move>, p: Reading, outcomes: map<nat, Outcome>) {
    CanReport(p, outcomes) && forall k: nat :: k in outcomes && outcomes[k] == Created ==> k in moved
  }

  lemma Looked(moved: map<nat, Move>, p: Reading, outcomes: map<nat, Outcome>)
    requires outcomes.Keys == Uncertain(p) && forall k: nat :: k in outcomes ==> outcomes[k] in {Created, NotInstalled, Unknown}
    requires forall k: nat :: k in outcomes && outcomes[k] == Created ==> k in moved
    ensures Truthful(moved, p, outcomes)
  {
  }

  lemma UncertainFits(h: Host, r: Registry, id: Id, reader: Reader)
    requires Joined(h, r, id) && reader in r.readings && r.readings[reader].id == id
    ensures forall k: nat :: k in Uncertain(r.readings[reader]) ==> k < |h.row.files|
  {
    hide Host.Valid;
  }

  /** The look at the destinations, between the two transactions of a pass. */
  method Inspect(h: Host, r: Registry, id: Id, reader: Reader) returns (raised: Raised, outcomes: map<nat, Outcome>, ghost states: seq<FS>)
    requires Joined(h, r, id) && reader in r.readings && r.readings[reader].id == id
    modifies h`fs, h`checkout, h`turns, h`alive
    ensures Joined(h, r, id) && Trail(states, old(h.fs), h.fs, h.ours, h.mine)
    ensures raised == NotRaised ==> Truthful(h.moved, r.readings[reader], outcomes) && DeniedOnSight(states, h.row, outcomes)
    ensures old(h.Quiet()) && old(h.checkout) != Some(h.row.root) ==>
              if r.readings[reader].recheck && Uncertain(r.readings[reader]) != {} then raised == ExportRefused
              else raised == NotRaised && forall k: nat :: k in outcomes ==> k < |h.row.files| && outcomes[k] == if h.row.files[k].staged.None? then NotInstalled else Unknown
  {
    UncertainFits(h, r, id, reader);
    hide Host.Valid, Registry.Valid, Uncertain, Truthful, Trail, DeniedOnSight, OthersMay, SameStaged;
    var p := r.readings[reader];
    var which := Uncertain(p);
    if !p.recheck || which == {} {
      outcomes, raised, states := LookAgain(h, which);
    } else {
      outcomes, raised, states := map[], NotRaised, [h.fs];
      TrailStarts(h.fs, h.ours, h.mine);
      NobodyDenied(states, h.row);
      var root := h.ReopenRoot();
      states := Afterwards(states, old(h.fs), old(h.fs), h.fs, h.ours, h.mine, h.row, outcomes);
      if root.Err? {
        return ExportRefused, outcomes, states;
      }
      ghost var before, more := h.fs, [];
      outcomes, raised, more := ObserveAll(h, which);
      states := SeenOn(states, more, old(h.fs), before, h.fs, h.ours, h.mine, h.row, outcomes);
    }
    if raised == NotRaised {
      Looked(h.moved, p, outcomes);
    }
  }

  /** The last transaction of a pass: the index may refuse it, or the daemon fail or die; otherwise the outcomes are written over whatever is there. */
  method WriteDown(h: Host, r: Registry, id: Id, reader: Reader, outcomes: map<nat, Outcome>) returns (ok: bool)
    requires Joined(h, r, id) && reader in r.readings && r.readings[reader].id == id && Truthful(h.moved, r.readings[reader], outcomes)
    modifies h`fs, h`checkout, h`turns, h`alive, h`row, r
    ensures Joined(h, r, id)
    ensures h.row == if ok then Concluded(old(h.row), old(r.readings)[reader], outcomes) else old(h.row)
    ensures h.fs == old(h.fs) || OthersMay(old(h.fs), h.fs, h.ours, h.mine)
    ensures forall other <- old(r.readings) :: other != reader ==> other in r.readings && r.readings[other] == old(r.readings)[other]
  {
    StagedStays(r.readings, id, h.row, r.readings[reader], outcomes);
    var p := r.readings[reader];
    var next := Concluded(h.row, p, outcomes);
    if Write(r.rows, id, next).Err? {
      var _ := r.Conclude(reader, outcomes);
      return false;
    }
    assert next == WithOutcomes(h.row, outcomes, next.state) by {
      ConcludedIs(h.row, p, outcomes);
    }
    ok := h.RecordReconciliation(outcomes, next.state);
    if ok {
      var _ := r.Conclude(reader, outcomes);
    }
  }

  lemma StagedStays(readings: map<Reader, Reading>, id: Id, now: Export, p: Reading, outcomes: map<nat, Outcome>)
    requires forall reader <- readings :: readings[reader].id == id ==> SameStaged(readings[reader].row, now)
    ensures forall reader <- readings :: readings[reader].id == id ==> SameStaged(readings[reader].row, Concluded(now, p, outcomes))
    ensures SameStaged(now, Concluded(now, p, outcomes))
  {
  }

  lemma ConcludedIs(now: Export, p: Reading, outcomes: map<nat, Outcome>)
    ensures Concluded(now, p, outcomes) == WithOutcomes(now, outcomes, Concluded(now, p, outcomes).state)
  {
  }

  datatype Step = Starts(reader: Reader, recheck: bool) | Looks(reader: Reader) | Settles(reader: Reader) | Closes

  /** What one step did to the row: a report was written over it, or the outcomes stayed. It revises a settled outcome exactly if a file that is reported was settled differently. */
  ghost predicate Wrote(a: Export, b: Export, report: Option<map<nat, Outcome>>) {
    && SameApproval(a, b) && SameStaged(a, b) && (if report.Some? then b == WithOutcomes(a, report.value, b.state) else b.files == a.files)
    && (Keeps(a, b) <==> report.None? || !Crosses(a, report.value))
  }

  /** No report that was written was of a file settled differently by then. */
  ghost predicate NoneCrosses(trail: seq<Export>, reports: seq<Option<map<nat, Outcome>>>)
    requires |reports| <= |trail|
  {
    forall i: nat :: i < |reports| && reports[i].Some? ==> !Crosses(trail[i], reports[i].value)
  }

  lemma NoneCrossesNext(trail: seq<Export>, reports: seq<Option<map<nat, Outcome>>>, row: Export, report: Option<map<nat, Outcome>>)
    requires |trail| == |reports| + 1
    ensures NoneCrosses(trail + [row], reports + [report]) <==>
              NoneCrosses(trail, reports) && (report.None? || !Crosses(trail[|reports|], report.value))
  {
    hide Crosses;
    var more, last := reports + [report], |reports|;
    assert more[last] == report && (trail + [row])[last] == trail[last];
    assert forall i: nat :: i < |reports| ==> more[i] == reports[i] && (trail + [row])[i] == trail[i];
  }

  /** What passes have seen was seen at some moment on the way. */
  ghost predicate Sighted(states: seq<FS>, row: Export, seen: map<Reader, map<nat, Outcome>>) {
    forall reader <- seen :: DeniedOnSight(states, row, seen[reader])
  }

  method Advance(h: Host, r: Registry, id: Id, seen0: map<Reader, map<nat, Outcome>>, step: Step)
    returns (seen: map<Reader, map<nat, Outcome>>, ghost report: Option<map<nat, Outcome>>, ghost states: seq<FS>)
    requires Joined(h, r, id) && Seen(h, r, id, seen0)
    modifies h`fs, h`checkout, h`turns, h`alive, h`row, r
    ensures Joined(h, r, id) && Seen(h, r, id, seen) && Wrote(old(h.row), h.row, report)
    ensures report.Some? ==> step.Settles? && step.reader in seen0 && report.value == seen0[step.reader]
    ensures Trail(states, old(h.fs), h.fs, h.ours, h.mine)
    ensures forall reader <- seen :: (reader in seen0 && seen[reader] == seen0[reader]) || DeniedOnSight(states, h.row, seen[reader])
  {
    hide Host.Valid, Registry.Valid, Keeps, Crosses, Concluded, CanReport, SameApproval, SameStaged, Truthful, Wrote, Trail, DeniedOnSight, OthersMay;
    seen, report, states := seen0, None, [h.fs];
    TrailStarts(h.fs, h.ours, h.mine);
    Untouched(h.row);
    match step {
      case Starts(reader, recheck) =>
        if reader !in r.readings {
          var _ := r.Look(reader, id, recheck);
        }
      case Looks(reader) =>
        if reader in r.readings && r.readings[reader].id == id {
          var raised, outcomes;
          raised, outcomes, states := Inspect(h, r, id, reader);
          seen := if raised == NotRaised then seen[reader := outcomes] else seen - {reader};
        }
      case Settles(reader) =>
        if reader in seen {
          ghost var was, p := h.row, r.readings[reader];
          var ok := WriteDown(h, r, id, reader, seen[reader]);
          states := OneTurn(old(h.fs), h.fs, h.ours, h.mine);
          seen := seen - {reader};
          if ok {
            report := Some(seen0[reader]);
            ConcludedWrites(was, p, seen0[reader]);
          }
        }
      case Closes =>
        var ok := Dismiss(h, r, id);
        states := OneTurn(old(h.fs), h.fs, h.ours, h.mine);
    }
  }

  lemma OneTurn(before: FS, after: FS, ours: Option<Ino>, mine: set<Ino>) returns (states: seq<FS>)
    requires after == before || OthersMay(before, after, ours, mine)
    ensures Trail(states, before, after, ours, mine)
  {
    hide OthersMay;
    TrailStarts(before, ours, mine);
    states := [before];
    if after != before {
      TrailNext([before], before, before, after, ours, mine);
      states := [before] + [after];
    }
  }

  lemma Untouched(a: Export)
    ensures forall state: State :: Wrote(a, a.(state := state), None)
    ensures Wrote(a, a, None) && SameStaged(a, a)
    ensures forall b: Export, state: State :: SameStaged(b, a) ==> SameStaged(b, a.(state := state))
  {
  }

  lemma ConcludedWrites(now: Export, p: Reading, outcomes: map<nat, Outcome>)
    ensures Wrote(now, Concluded(now, p, outcomes), Some(outcomes))
  {
    ConclusionLimit(now, p, outcomes);
    ConclusionApproved(now, p, outcomes);
    ConcludedIs(now, p, outcomes);
    StagedStays(map[], 0, now, p, outcomes);
  }

  /** Any number of passes over one export, each of its transactions and its look at the checkout at any moment, with everybody else in between: what is recorded as created was moved by this export, whoever found it; a staged file is reported as not installed only if its destination was looked for, and was not there; and a step revises a settled outcome exactly if it writes a report of a file settled differently since the pass read it. */
  method ServeExport(h: Host, r: Registry, id: Id, steps: seq<Step>)
    returns (ghost trail: seq<Export>, ghost reports: seq<Option<map<nat, Outcome>>>, ghost states: seq<FS>)
    requires Joined(h, r, id)
    modifies h`fs, h`checkout, h`turns, h`alive, h`row, r
    ensures Joined(h, r, id) && SameApproval(old(h.row), h.row)
    ensures forall k: nat :: k < |h.row.files| && h.row.files[k].outcome == Created ==> k in h.moved && h.moved[k].data == h.row.files[k].expected
    ensures |reports| == |steps| && |trail| == |steps| + 1 && trail[0] == old(h.row) && trail[|steps|] == h.row
    ensures forall i: nat :: i < |steps| ==> Wrote(trail[i], trail[i + 1], reports[i]) && (reports[i].Some? ==> steps[i].Settles?)
    ensures NoneCrosses(trail, reports) ==> Keeps(old(h.row), h.row)
    ensures Trail(states, old(h.fs), h.fs, h.ours, h.mine)
    ensures forall i: nat :: i < |steps| && reports[i].Some? ==> DeniedOnSight(states, old(h.row), reports[i].value)
  {
    hide Joined, Seen, Keeps, Crosses, SameApproval, SameStaged, Wrote, NoneCrosses, Trail, DeniedOnSight, Sighted;
    var seen: map<Reader, map<nat, Outcome>> := map[];
    NothingSeen(h, r, id);
    trail, reports, states := [h.row], [], [h.fs];
    TrailStarts(h.fs, h.ours, h.mine);
    NothingSighted(states, h.row);
    Onwards(h.row, h.row, h.row);
    for n := 0 to |steps|
      invariant Joined(h, r, id) && Seen(h, r, id, seen) && SameApproval(old(h.row), h.row) && SameStaged(old(h.row), h.row)
      invariant |reports| == n && |trail| == n + 1 && trail[0] == old(h.row) && trail[n] == h.row
      invariant forall i: nat :: i < n ==> Wrote(trail[i], trail[i + 1], reports[i]) && (reports[i].Some? ==> steps[i].Settles?)
      invariant NoneCrosses(trail, reports) ==> Keeps(old(h.row), h.row)
      invariant Trail(states, old(h.fs), h.fs, h.ours, h.mine) && Sighted(states, old(h.row), seen)
      invariant forall i: nat :: i < n && reports[i].Some? ==> DeniedOnSight(states, old(h.row), reports[i].value)
    {
      ghost var was, before, seen0, states0, report, more := h.row, h.fs, seen, states, None, [];
      seen, report, more := Advance(h, r, id, seen, steps[n]);
      NoneCrossesNext(trail, reports, h.row, report);
      trail, reports := trail + [h.row], reports + [report];
      WroteOnwards(old(h.row), was, h.row, report);
      TrailOn(states0, more, old(h.fs), before, h.fs, h.ours, h.mine);
      states := states0 + more[1..];
      SightsOn(states0, more, old(h.fs), before, h.fs, h.ours, h.mine, old(h.row), h.row, seen0, seen, report);
      ReportsStay(states0, more, old(h.row), reports[..n]);
      assert forall i: nat :: i < n ==> reports[..n][i] == reports[i];
    }
    JoinedHonest(h, r, id);
  }

  lemma NothingSighted(states: seq<FS>, row: Export)
    ensures Sighted(states, row, map[])
  {
  }

  lemma SightsOn(states: seq<FS>, more: seq<FS>, first: FS, middle: FS, last: FS, ours: Option<Ino>, mine: set<Ino>, row: Export, now: Export,
                 seen0: map<Reader, map<nat, Outcome>>, seen: map<Reader, map<nat, Outcome>>, report: Option<map<nat, Outcome>>)
    requires Trail(states, first, middle, ours, mine) && Trail(more, middle, last, ours, mine)
    requires SameApproval(row, now) && SameStaged(row, now) && Sighted(states, row, seen0)
    requires forall reader <- seen :: (reader in seen0 && seen[reader] == seen0[reader]) || DeniedOnSight(more, now, seen[reader])
    requires report.Some? ==> exists reader :: reader in seen0 && report.value == seen0[reader]
    ensures Sighted(states + more[1..], row, seen)
    ensures report.Some? ==> DeniedOnSight(states + more[1..], row, report.value)
  {
    var all := states + more[1..];
    BothSeen(states, more);
    forall reader <- seen0
      ensures DeniedOnSight(all, row, seen0[reader])
    {
      DeniedLonger(states, all, row, seen0[reader]);
    }
    forall reader <- seen
      ensures DeniedOnSight(all, row, seen[reader])
    {
      if !(reader in seen0 && seen[reader] == seen0[reader]) {
        DeniedLonger(more, all, now, seen[reader]);
        SameSights(all, row, now, seen[reader]);
      }
    }
  }

  lemma SameSights(states: seq<FS>, a: Export, b: Export, outcomes: map<nat, Outcome>)
    requires SameApproval(a, b) && SameStaged(a, b) && DeniedOnSight(states, b, outcomes)
    ensures DeniedOnSight(states, a, outcomes)
  {
    hide SeenMissing;
  }

  lemma ReportsStay(states: seq<FS>, more: seq<FS>, row: Export, reports: seq<Option<map<nat, Outcome>>>)
    requires more != [] && forall i: nat :: i < |reports| && reports[i].Some? ==> DeniedOnSight(states, row, reports[i].value)
    ensures forall i: nat :: i < |reports| && reports[i].Some? ==> DeniedOnSight(states + more[1..], row, reports[i].value)
  {
    hide DeniedOnSight;
    forall i: nat | i < |reports| && reports[i].Some?
      ensures DeniedOnSight(states + more[1..], row, reports[i].value)
    {
      DeniedLonger(states, states + more[1..], row, reports[i].value);
    }
  }

  lemma NothingSeen(h: Host, r: Registry, id: Id)
    ensures Seen(h, r, id, map[])
  {
  }

  lemma JoinedHonest(h: Host, r: Registry, id: Id)
    requires Joined(h, r, id)
    ensures forall k: nat :: k < |h.row.files| && h.row.files[k].outcome == Created ==> k in h.moved && h.moved[k].data == h.row.files[k].expected
  {
    h.Meaning();
  }

  lemma WroteOnwards(a: Export, b: Export, c: Export, report: Option<map<nat, Outcome>>)
    requires SameApproval(a, b) && Wrote(b, c, report)
    ensures SameApproval(a, c) && (SameStaged(a, b) ==> SameStaged(a, c))
    ensures Keeps(a, b) && (report.None? || !Crosses(b, report.value)) ==> Keeps(a, c)
  {
    Onwards(a, b, c);
  }

  /** `acknowledge`: one transaction. */
  method Dismiss(h: Host, r: Registry, id: Id) returns (ok: bool)
    requires Joined(h, r, id)
    modifies h`fs, h`checkout, h`turns, h`alive, h`row, r`rows
    ensures Joined(h, r, id) && h.row == if ok then old(h.row).(state := Incomplete) else old(h.row)
    ensures h.fs == old(h.fs) || OthersMay(old(h.fs), h.fs, h.ours, h.mine)
  {
    Untouched(h.row);
    hide Host.Valid, SameStaged, OthersMay, Wrote;
    ok := Acknowledge(h);
    if ok {
      var _ := r.Acknowledge(id);
    }
  }

  lemma Onwards(a: Export, b: Export, c: Export)
    ensures SameApproval(a, a) && Keeps(a, a) && SameStaged(a, a)
    ensures SameApproval(a, b) && SameApproval(b, c) ==> SameApproval(a, c)
    ensures Keeps(a, b) && Keeps(b, c) ==> Keeps(a, c)
  {
  }
}
