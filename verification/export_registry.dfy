/** The export table: admissions, the active-root index, and the transitions of every operation. */
module ExportRegistry {
  import opened Filesystem
  import opened ExportJournal
  import opened ExportManager
  import opened Wrappers

  /** What makes two confirmations the same request, and what they confirm. */
  datatype Confirmation = Confirmation(task: nat, request: string, token: string)

  datatype Entry = Entry(confirmation: Confirmation, row: Export)

  type Id = nat

  // ----- The two unique indexes -----

  ghost predicate ActiveRootsUnique(rows: map<Id, Entry>) {
    forall a, b :: a in rows && b in rows && a != b && Active(rows[a].row.state) && Active(rows[b].row.state) ==>
      rows[a].row.root != rows[b].row.root
  }

  ghost predicate RequestsUnique(rows: map<Id, Entry>) {
    forall a, b :: a in rows && b in rows && a != b ==>
      rows[a].confirmation.task != rows[b].confirmation.task || rows[a].confirmation.request != rows[b].confirmation.request
  }

  /** Another operation is active on the same root. */
  predicate Contended(rows: map<Id, Entry>, id: Id, row: Export) {
    exists other <- rows :: other != id && Active(rows[other].row.state) && rows[other].row.root == row.root
  }

  /** One transaction writing row `id`: refused, changing nothing, when it would put two active operations on one root. */
  function Write(rows: map<Id, Entry>, id: Id, row: Export): Result<map<Id, Entry>>
    requires id in rows
  {
    if Active(row.state) && Contended(rows, id, row) then Err(Exists)
    else Ok(rows[id := rows[id].(row := row)])
  }

  /** A write keeps both indexes, and among operations that keep their root only one is ever refused: one that turns active again while another holds the root. */
  lemma WriteKeeps(rows: map<Id, Entry>, id: Id, row: Export)
    requires id in rows && ActiveRootsUnique(rows) && RequestsUnique(rows)
    ensures Write(rows, id, row).Ok? ==>
              ActiveRootsUnique(Write(rows, id, row).value) && RequestsUnique(Write(rows, id, row).value)
    ensures row.root == rows[id].row.root ==>
              (Write(rows, id, row).Err? <==>
                 !Active(rows[id].row.state) && Active(row.state) && Contended(rows, id, row))
  {
  }

  /** An operation closed with an unknown outcome cannot become unresolved again once its root has been taken. */
  lemma RecheckCanBeRefused(row: Export, other: Export, a: Id, b: Id, ca: Confirmation, cb: Confirmation)
    requires a != b && row.root == other.root && row.state == Incomplete && other.state == Running
    requires HasUnknown(row.files)
    ensures Write(map[a := Entry(ca, row), b := Entry(cb, other)], a, row.(state := ClassifyState(row.files))).Err?
  {
    var rows := map[a := Entry(ca, row), b := Entry(cb, other)];
    assert b in rows && rows[b].row == other;
  }

  // ----- Operations -----

  datatype Admission = New | Replay(prior: Id) | Mismatch | Busy

  type Reader = nat

  /** A pass that has read an export's record, in a transaction of its own, and not written yet. */
  datatype Reading = Reading(id: Id, row: Export, recheck: bool)

  /** The files it looks at: the pending ones, and for a recheck the unknown ones too. */
  function Uncertain(p: Reading): set<nat> {
    FilesWith(p.row.files, p.recheck)
  }

  /** What its look at the destinations may report. */
  predicate CanReport(p: Reading, outcomes: map<nat, Outcome>) {
    outcomes.Keys == Uncertain(p) && forall k: nat :: k in outcomes ==> outcomes[k] in {Created, NotInstalled, Unknown}
  }

  /** What it writes, whatever has been written since it read: its outcomes, and the state that they imply for the record it read. */
  function Concluded(now: Export, p: Reading, outcomes: map<nat, Outcome>): Export {
    WithOutcomes(now, outcomes, ClassifyState(WithOutcomes(p.row, outcomes, Running).files))
  }

  /** Outcomes that are settled stay. */
  ghost predicate Keeps(a: Export, b: Export) {
    forall k: nat :: k < |a.files| && Settled(a.files[k].outcome) ==> k < |b.files| && b.files[k].outcome == a.files[k].outcome
  }

  /** Some file that is reported has been settled differently. */
  ghost predicate Crosses(now: Export, outcomes: map<nat, Outcome>) {
    exists k: nat :: k in outcomes && k < |now.files| && Settled(now.files[k].outcome) && now.files[k].outcome != outcomes[k]
  }

  /** What a pass writes keeps every settled outcome exactly if no file it reports was settled differently since it read. */
  lemma ConclusionLimit(now: Export, p: Reading, outcomes: map<nat, Outcome>)
    ensures Keeps(now, Concluded(now, p, outcomes)) <==> !Crosses(now, outcomes)
  {
    var next := Concluded(now, p, outcomes);
    if k: nat :| k in outcomes && k < |now.files| && Settled(now.files[k].outcome) && now.files[k].outcome != outcomes[k] {
      assert next.files[k].outcome == outcomes[k];
    }
    assert forall k: nat :: k < |now.files| && k !in outcomes ==> next.files[k] == now.files[k];
  }

  lemma ConclusionApproved(now: Export, p: Reading, outcomes: map<nat, Outcome>)
    ensures SameApproval(now, Concluded(now, p, outcomes)) && Concluded(now, p, outcomes).root == now.root
    ensures Active(Concluded(now, p, outcomes).state) <==> HasUnknown(WithOutcomes(p.row, outcomes, Running).files)
  {
  }

  lemma ConclusionWrite(rows: map<Id, Entry>, p: Reading, outcomes: map<nat, Outcome>)
    requires p.id in rows && ActiveRootsUnique(rows) && RequestsUnique(rows)
    ensures var now := rows[p.id].row;
            var next := Concluded(now, p, outcomes);
            && SameApproval(now, next) && (Keeps(now, next) <==> !Crosses(now, outcomes))
            && (Write(rows, p.id, next).Err? <==>
                  !Active(now.state) && Contended(rows, p.id, now) && HasUnknown(WithOutcomes(p.row, outcomes, Running).files))
            && (Write(rows, p.id, next).Ok? ==> p.id in Write(rows, p.id, next).value && Write(rows, p.id, next).value[p.id].row == next)
  {
    var now := rows[p.id].row;
    ConclusionLimit(now, p, outcomes);
    ConclusionApproved(now, p, outcomes);
    hide Keeps, Crosses, Concluded, SameApproval, WithOutcomes, HasUnknown;
    WriteKeeps(rows, p.id, Concluded(now, p, outcomes));
  }

  /** If nothing was written in between, nothing settled is revised, and the state is the one the outcomes imply. */
  lemma AloneKeeps(p: Reading, outcomes: map<nat, Outcome>)
    requires CanReport(p, outcomes)
    ensures Keeps(p.row, Concluded(p.row, p, outcomes)) && !Crosses(p.row, outcomes)
    ensures Reobserved(p.row, Concluded(p.row, p, outcomes))
  {
    ConclusionLimit(p.row, p, outcomes);
    ReobservedRow(p.row, outcomes);
  }

  /** The files that are not reported, as far as the state depends on them. */
  ghost predicate UnknownElsewhere(files: seq<FileRow>, outcomes: map<nat, Outcome>) {
    exists k: nat :: k < |files| && k !in outcomes && files[k].outcome == Unknown
  }

  ghost predicate DeliveredElsewhere(files: seq<FileRow>, outcomes: map<nat, Outcome>) {
    forall k: nat :: k < |files| && k !in outcomes ==> Delivered(files[k].outcome)
  }

  ghost predicate ReportsUnknown(files: seq<FileRow>, outcomes: map<nat, Outcome>) {
    exists k: nat :: k < |files| && k in outcomes && outcomes[k] == Unknown
  }

  ghost predicate ReportsDelivered(files: seq<FileRow>, outcomes: map<nat, Outcome>) {
    forall k: nat :: k < |files| && k in outcomes ==> Delivered(outcomes[k])
  }

  lemma StateOfBoth(row: Export, outcomes: map<nat, Outcome>)
    ensures var files := WithOutcomes(row, outcomes, Running).files;
            && (HasUnknown(files) <==> ReportsUnknown(row.files, outcomes) || UnknownElsewhere(row.files, outcomes))
            && (AllDelivered(files) <==> ReportsDelivered(row.files, outcomes) && DeliveredElsewhere(row.files, outcomes))
  {
    var files := WithOutcomes(row, outcomes, Running).files;
    if k: nat :| k < |row.files| && (if k in outcomes then outcomes[k] else row.files[k].outcome) == Unknown {
      assert files[k].outcome == Unknown;
    }
    if !AllDelivered(files) {
      var k :| 0 <= k < |files| && !Delivered(files[k].outcome);
      assert k in outcomes || files[k] == row.files[k];
    }
    if k: nat :| k < |row.files| && !Delivered(if k in outcomes then outcomes[k] else row.files[k].outcome) {
      assert !Delivered(files[k].outcome);
    }
  }

  /** The state a pass writes is the one the outcomes imply exactly if it reports something unknown, or the other files still look as they did: as to whether one is unknown, and, if that could make the export complete, whether all are delivered. */
  lemma ConclusionState(now: Export, p: Reading, outcomes: map<nat, Outcome>)
    requires |now.files| == |p.row.files|
    ensures Concluded(now, p, outcomes).state == ClassifyState(Concluded(now, p, outcomes).files) <==>
              || ReportsUnknown(now.files, outcomes)
              || (UnknownElsewhere(now.files, outcomes) && UnknownElsewhere(p.row.files, outcomes))
              || (&& !UnknownElsewhere(now.files, outcomes) && !UnknownElsewhere(p.row.files, outcomes)
                  && (ReportsDelivered(now.files, outcomes) ==>
                        (DeliveredElsewhere(now.files, outcomes) <==> DeliveredElsewhere(p.row.files, outcomes))))
  {
    StateOfBoth(now, outcomes);
    StateOfBoth(p.row, outcomes);
    assert Concluded(now, p, outcomes).files == WithOutcomes(now, outcomes, Running).files;
    hide WithOutcomes, HasUnknown, AllDelivered, UnknownElsewhere, DeliveredElsewhere;
    assert ReportsUnknown(now.files, outcomes) <==> ReportsUnknown(p.row.files, outcomes);
    assert ReportsDelivered(now.files, outcomes) <==> ReportsDelivered(p.row.files, outcomes);
  }

  /** What one transaction may do to the table: at most one row changes, and never its approval. */
  ghost predicate Changes(before: map<Id, Entry>, after: map<Id, Entry>, id: Id) {
    && before.Keys <= after.Keys
    && (forall other :: other in before && other != id ==> after[other] == before[other])
    && (id in before ==> after[id].confirmation == before[id].confirmation && SameApproval(before[id].row, after[id].row))
  }

  class Registry {
    var rows: map<Id, Entry>
    /** The passes under way. */
    var readings: map<Reader, Reading>

    constructor ()
      ensures Valid() && rows == map[] && readings == map[]
    {
      rows, readings := map[], map[];
    }

    /** Both indexes hold, and every record that was read is, but for what is written during an export, the record that is there. */
    ghost predicate Valid()
      reads this
    {
      && ActiveRootsUnique(rows) && RequestsUnique(rows)
      && forall r :: r in readings ==> readings[r].id in rows && SameApproval(readings[r].row, rows[readings[r].id].row)
    }

    /** `admit_export`: a repeated request is answered from the table, a busy root refuses, and a new operation reserves its root. */
    method Admit(id: Id, confirmation: Confirmation, row: Export) returns (r: Admission)
      requires Valid() && id !in rows && Admitted(row)
      modifies `rows
      ensures Valid()
      ensures r == New ==> rows == old(rows)[id := Entry(confirmation, row)]
                           && forall other :: other in old(rows) && Active(old(rows)[other].row.state) ==> old(rows)[other].row.root != row.root
      ensures r != New ==> rows == old(rows)
      ensures r.Replay? ==> r.prior in rows && rows[r.prior].confirmation == confirmation
      ensures r == Mismatch ==> exists p :: p in rows && rows[p].confirmation.task == confirmation.task
                                  && rows[p].confirmation.request == confirmation.request && rows[p].confirmation != confirmation
      ensures r == Busy ==> exists p :: p in rows && Active(rows[p].row.state) && rows[p].row.root == row.root
      ensures (exists p :: p in old(rows) && old(rows)[p].confirmation == confirmation) ==> r.Replay?
      ensures r.Replay? || r == Mismatch <==>
                exists p :: p in old(rows) && old(rows)[p].confirmation.task == confirmation.task
                            && old(rows)[p].confirmation.request == confirmation.request
    {
      if p :| p in rows && rows[p].confirmation.task == confirmation.task && rows[p].confirmation.request == confirmation.request {
        return if rows[p].confirmation == confirmation then Replay(p) else Mismatch;
      }
      if p :| p in rows && Active(rows[p].row.state) && rows[p].row.root == row.root {
        return Busy;
      }
      rows := rows[id := Entry(confirmation, row)];
      r := New;
    }

    /** `record_file_outcome`: written whatever the file's outcome is by then. */
    method RecordOutcome(id: Id, k: nat, o: Outcome) returns (ok: bool)
      requires Valid() && id in rows && k < |rows[id].row.files|
      modifies `rows
      ensures Valid() && Changes(old(rows), rows, id) && rows.Keys == old(rows).Keys
      ensures ok && rows[id].row == WithOutcome(old(rows)[id].row, k, o)
      ensures Keeps(old(rows)[id].row, rows[id].row) <==> !Settled(old(rows)[id].row.files[k].outcome) || old(rows)[id].row.files[k].outcome == o
    {
      ok := Commit(id, WithOutcome(rows[id].row, k, o));
      assert ok by {
        WriteKeeps(old(rows), id, WithOutcome(old(rows)[id].row, k, o));
      }
      assert rows[id].row.files[k].outcome == o;
    }

    /** `finish_export`: refused by the index only if it turns the export active again while another holds the root. */
    method Finish(id: Id, claimed: State, stagingLeft: bool) returns (ok: bool)
      requires Valid() && id in rows && claimed != Running
      modifies `rows
      ensures Valid() && Changes(old(rows), rows, id) && rows.Keys == old(rows).Keys
      ensures rows == if ok then old(rows)[id := old(rows)[id].(row := old(rows)[id].row.(state := FinishState(claimed, old(rows)[id].row.files, stagingLeft)))] else old(rows)
      ensures ok && rows[id].row.state == Completed ==> forall f <- rows[id].row.files :: Delivered(f.outcome)
      ensures ok && (exists f <- rows[id].row.files :: f.outcome == Unknown) ==> rows[id].row.state == Unresolved
      ensures !ok <==> !Active(old(rows)[id].row.state) && Contended(old(rows), id, old(rows)[id].row)
                       && FinishState(claimed, old(rows)[id].row.files, stagingLeft) == Unresolved
      ensures Keeps(old(rows)[id].row, rows[id].row)
    {
      var e := rows[id].row;
      ClassifyExact(e.files);
      WriteKeeps(rows, id, e.(state := FinishState(claimed, e.files, stagingLeft)));
      ok := Commit(id, e.(state := FinishState(claimed, e.files, stagingLeft)));
    }

    /** The first transaction of `reconcile` or `recheck`: the record is read. A recheck has nothing to do unless the export is unresolved or incomplete and something is uncertain; a reconciliation is of exports that look as if they ran. */
    method Look(reader: Reader, id: Id, recheck: bool) returns (ok: bool)
      requires Valid() && id in rows && reader !in readings
      modifies `readings
      ensures Valid()
      ensures ok <==> if recheck then rows[id].row.state in {Unresolved, Incomplete} && exists f <- rows[id].row.files :: !Settled(f.outcome)
                      else rows[id].row.state == Running
      ensures readings == if ok then old(readings)[reader := Reading(id, rows[id].row, recheck)] else old(readings)
    {
      var p := Reading(id, rows[id].row, recheck);
      if recheck {
        assert Uncertain(p) != {} <==> exists f <- p.row.files :: !Settled(f.outcome) by {
          SomeUncertain(p.row.files);
        }
      }
      ok := if recheck then p.row.state in {Unresolved, Incomplete} && Uncertain(p) != {} else p.row.state == Running;
      if ok {
        readings := readings[reader := p];
      }
    }

    /** The last transaction of such a pass, `record_reconciliation`: one write for its outcomes and the state, over whatever is there by then. It keeps every settled outcome exactly if no file it reports was settled differently since it read. */
    method Conclude(reader: Reader, outcomes: map<nat, Outcome>) returns (ok: bool)
      requires Valid() && reader in readings && CanReport(readings[reader], outcomes)
      modifies this
      ensures Valid() && readings == old(readings) - {reader}
      ensures var p := old(readings)[reader];
              && p.id in old(rows) && Changes(old(rows), rows, p.id) && rows.Keys == old(rows).Keys
              && (if ok then rows[p.id].row == Concluded(old(rows)[p.id].row, p, outcomes) else rows == old(rows))
              && ok == Write(old(rows), p.id, Concluded(old(rows)[p.id].row, p, outcomes)).Ok?
              && (ok ==> (Keeps(old(rows)[p.id].row, rows[p.id].row) <==> !Crosses(old(rows)[p.id].row, outcomes)))
              && (!ok <==> !Active(old(rows)[p.id].row.state) && Contended(old(rows), p.id, old(rows)[p.id].row)
                           && HasUnknown(WithOutcomes(p.row, outcomes, Running).files))
    {
      var p := readings[reader];
      hide Keeps, Crosses, Concluded, CanReport, SameApproval, WithOutcomes, HasUnknown, ActiveRootsUnique, RequestsUnique, Contended, Write, Changes;
      ConclusionWrite(rows, p, outcomes);
      ok := Commit(p.id, Concluded(rows[p.id].row, p, outcomes));
      readings := readings - {reader};
    }

    /** `acknowledge_export` */
    method Acknowledge(id: Id) returns (ok: bool)
      requires Valid() && id in rows
      modifies `rows
      ensures Valid() && Changes(old(rows), rows, id) && rows.Keys == old(rows).Keys
      ensures ok <==> old(rows)[id].row.state == Unresolved
      ensures rows == if ok then old(rows)[id := old(rows)[id].(row := old(rows)[id].row.(state := Incomplete))] else old(rows)
    {
      if rows[id].row.state != Unresolved {
        return false;
      }
      var e := rows[id].row;
      ok := Commit(id, e.(state := Incomplete));
    }

    method Commit(id: Id, next: Export) returns (ok: bool)
      requires Valid() && id in rows && SameApproval(rows[id].row, next)
      modifies `rows
      ensures Valid() && Changes(old(rows), rows, id) && rows.Keys == old(rows).Keys
      ensures ok == Write(old(rows), id, next).Ok?
      ensures rows == if ok then Write(old(rows), id, next).value else old(rows)
    {
      WriteKeeps(rows, id, next);
      match Write(rows, id, next)
      case Ok(after) =>
        rows := after;
        ok := true;
      case Err(_) =>
        ok := false;
    }

    // ----- Any sequence of requests -----

    ghost function Now(): Table
      reads this
    {
      Table(rows, readings)
    }

    /** One transaction. */
    method Answer(q: Request)
      requires Valid()
      modifies this
      ensures Valid() && Approved(old(rows), rows)
      ensures AllKept(old(rows), rows) <==> !Revises(old(Now()), q)
    {
      hide CanReport, SameApproval, ActiveRootsUnique, RequestsUnique, Admitted, Keeps, Crosses, Write, Concluded, Contended;
      Unchanged(rows);
      match q {
        case Ask(id, confirmation, row) =>
          if id !in rows && IsAdmitted(row) {
            var _ := Admit(id, confirmation, row);
            Inserted(old(rows), id, confirmation, row);
          }
        case Settle(id, claimed, stagingLeft) =>
          if id in rows && claimed != Running {
            var _ := Finish(id, claimed, stagingLeft);
            Changed(old(rows), rows, id);
          }
        case Record(id, k, o) =>
          if id in rows && k < |rows[id].row.files| {
            var _ := RecordOutcome(id, k, o);
            Changed(old(rows), rows, id);
          }
        case Begin(reader, id, recheck) =>
          if id in rows && reader !in readings {
            var _ := Look(reader, id, recheck);
          }
        case End(reader, outcomes) =>
          if reader in readings && CanReport(readings[reader], outcomes) {
            var id := readings[reader].id;
            var ok := Conclude(reader, outcomes);
            if ok {
              Changed(old(rows), rows, id);
            }
          }
        case Close(id) =>
          if id in rows {
            var ok := Acknowledge(id);
            Changed(old(rows), rows, id);
            SameOutcomes(old(rows)[id].row, rows[id].row);
          }
      }
    }

    /** Whatever clients, restarts and a surviving installation ask for, in any order: no root ever has two running or unresolved exports, no export disappears, and no approval changes. A request revises a settled outcome exactly if it records an outcome over a different settled one, or ends a pass that reports a file settled differently since the pass read it; if none does, no settled outcome is ever revised. */
    method Serve(requests: seq<Request>) returns (ghost tables: seq<Table>)
      requires Valid()
      modifies this
      ensures Valid() && Approved(old(rows), rows)
      ensures |tables| == |requests| + 1 && tables[0] == old(Now()) && tables[|requests|] == Now()
      ensures forall i: nat :: i < |requests| ==> (AllKept(tables[i].rows, tables[i + 1].rows) <==> !Revises(tables[i], requests[i]))
      ensures (forall i: nat :: i < |requests| ==> !Revises(tables[i], requests[i])) ==> AllKept(old(rows), rows)
    {
      hide Approved, AllKept, Revises, ActiveRootsUnique, RequestsUnique, SameApproval;
      tables := [Now()];
      Unchanged(rows);
      for n := 0 to |requests|
        invariant Valid() && Approved(old(rows), rows)
        invariant |tables| == n + 1 && tables[0] == old(Now()) && tables[n] == Now()
        invariant forall i: nat :: i < n ==> (AllKept(tables[i].rows, tables[i + 1].rows) <==> !Revises(tables[i], requests[i]))
        invariant (forall i: nat :: i < n ==> !Revises(tables[i], requests[i])) ==> AllKept(old(rows), rows)
      {
        ghost var was := rows;
        Answer(requests[n]);
        tables := tables + [Now()];
        ApprovedOn(old(rows), was, rows);
        if AllKept(old(rows), was) && AllKept(was, rows) {
          KeptOn(old(rows), was, rows);
        }
      }
    }
  }

  datatype Table = Table(rows: map<Id, Entry>, readings: map<Reader, Reading>)

  datatype Request =
    | Ask(id: Id, confirmation: Confirmation, row: Export)
    | Settle(id: Id, claimed: State, stagingLeft: bool)
    | Record(id: Id, k: nat, o: Outcome)
    | Begin(reader: Reader, id: Id, recheck: bool)
    | End(reader: Reader, outcomes: map<nat, Outcome>)
    | Close(id: Id)

  predicate IsAdmitted(row: Export) {
    row.state == Running && forall k | 0 <= k < |row.files| ::
      row.files[k].staged.None? && row.files[k].outcome == Pending && row.files[k].kind != Conflict
  }

  /** No export disappears, and none is approved anew. */
  ghost predicate Approved(before: map<Id, Entry>, after: map<Id, Entry>) {
    forall id :: id in before ==> id in after && after[id].confirmation == before[id].confirmation && SameApproval(before[id].row, after[id].row)
  }

  ghost predicate AllKept(before: map<Id, Entry>, after: map<Id, Entry>) {
    forall id :: id in before ==> id in after && Keeps(before[id].row, after[id].row)
  }

  /** The request overwrites a settled outcome by another one. */
  ghost predicate Revises(s: Table, q: Request) {
    match q
    case Record(id, k, o) => id in s.rows && k < |s.rows[id].row.files| && Settled(s.rows[id].row.files[k].outcome) && s.rows[id].row.files[k].outcome != o
    case End(reader, outcomes) =>
      && reader in s.readings && CanReport(s.readings[reader], outcomes) && s.readings[reader].id in s.rows
      && var p, now := s.readings[reader], s.rows[s.readings[reader].id].row;
         Crosses(now, outcomes) && Write(s.rows, p.id, Concluded(now, p, outcomes)).Ok?
    case _ => false
  }

  /** Nobody wrote the export since the pass read it, and an installation records a file that is still pending. */
  ghost predicate Alone(s: Table, q: Request) {
    match q
    case Record(id, k, _) => id in s.rows && k < |s.rows[id].row.files| ==> s.rows[id].row.files[k].outcome == Pending
    case End(reader, _) => reader in s.readings && s.readings[reader].id in s.rows ==> s.rows[s.readings[reader].id].row == s.readings[reader].row
    case _ => true
  }

  /** Work on one export that does not overlap revises nothing. */
  lemma AloneRevisesNothing(s: Table, q: Request)
    requires Alone(s, q)
    ensures !Revises(s, q)
  {
    if q.End? && q.reader in s.readings && CanReport(s.readings[q.reader], q.outcomes) {
      AloneKeeps(s.readings[q.reader], q.outcomes);
    }
  }

  lemma Unchanged(rows: map<Id, Entry>)
    ensures AllKept(rows, rows) && Approved(rows, rows)
  {
  }

  lemma SomeUncertain(files: seq<FileRow>)
    ensures FilesWith(files, true) != {} <==> exists f <- files :: !Settled(f.outcome)
  {
    if f :| f in files && !Settled(f.outcome) {
      var k: nat :| k < |files| && files[k] == f;
      assert k in FilesWith(files, true);
    }
    if k: nat :| k in FilesWith(files, true) {
      assert files[k] in files;
    }
  }

  lemma SameOutcomes(a: Export, b: Export)
    requires a.files == b.files
    ensures Keeps(a, b)
  {
  }

  /** One row changes: what is settled in the table is kept exactly if it is in that row. */
  lemma Changed(before: map<Id, Entry>, after: map<Id, Entry>, id: Id)
    requires Changes(before, after, id) && id in before
    ensures Approved(before, after)
    ensures AllKept(before, after) <==> Keeps(before[id].row, after[id].row)
  {
    Unchanged(before);
    hide Keeps;
  }

  lemma Inserted(before: map<Id, Entry>, id: Id, confirmation: Confirmation, row: Export)
    requires id !in before
    ensures var after := before[id := Entry(confirmation, row)]; AllKept(before, after) && Approved(before, after)
  {
    Unchanged(before);
    hide Keeps;
  }

  lemma ApprovedOn(a: map<Id, Entry>, b: map<Id, Entry>, c: map<Id, Entry>)
    requires Approved(a, b) && Approved(b, c)
    ensures Approved(a, c)
  {
  }

  lemma KeptOn(a: map<Id, Entry>, b: map<Id, Entry>, c: map<Id, Entry>)
    requires AllKept(a, b) && AllKept(b, c)
    ensures AllKept(a, c)
  {
    forall id | id in a
      ensures Keeps(a[id].row, c[id].row)
    {
    }
  }
}
