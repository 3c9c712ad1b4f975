/** Bringing operator state out of a snap revision directory, once, whatever interrupts it. */
module DataDirectory {
  import opened Bytes

  datatype File = Token | AuditLog | WriteAheadLog | Database

  /** A name in the destination: a file's own, or the one it is staged under. */
  datatype Name = Final(file: File) | Staged(file: File)

  type Files = map<Name, ByteString>

  /** What becomes of one call: it works, it fails, or the daemon dies in it, having written so many bytes. */
  datatype Turn = Works | Fails | Dies(written: nat)

  datatype Outcome = NothingToDo | Carried | Raised

  /** Every file of the source is in place, with its bytes. */
  predicate InPlace(source: map<File, ByteString>, files: Files) {
    forall f <- source :: Final(f) in files && files[Final(f)] == source[f]
  }

  /** Files the source does not have are as they were before the first start. */
  ghost predicate OthersKept(source: map<File, ByteString>, before: Files, files: Files) {
    forall f: File :: f !in source ==>
      (Final(f) in files <==> Final(f) in before) && (Final(f) in before ==> files[Final(f)] == before[Final(f)])
  }

  /** What every moment of every run keeps: a destination that had a database is untouched, and a database that was placed has everything with it. */
  ghost predicate Safe(source: map<File, ByteString>, before: Files, files: Files) {
    if Final(Database) in before then files == before
    else OthersKept(source, before, files) && (Final(Database) in files ==> InPlace(source, files))
  }

  /** The files a run stages, in the order it renames them: the database last. */
  function Plan(source: map<File, ByteString>): (plan: seq<File>)
    ensures forall f :: f in plan <==> f in source && (f == Database || f in {Token, AuditLog, WriteAheadLog})
  {
    (if Token in source then [Token] else [])
    + (if AuditLog in source then [AuditLog] else [])
    + (if WriteAheadLog in source then [WriteAheadLog] else [])
    + (if Database in source then [Database] else [])
  }

  /** Each file of the source once, the database last. */
  ghost predicate Ordered(source: map<File, ByteString>, plan: seq<File>) {
    && plan != [] && plan[|plan| - 1] == Database
    && (forall f :: f in plan <==> f in source)
    && forall i: nat, j: nat :: i < j < |plan| ==> plan[i] != plan[j]
  }

  lemma PlanOrder(source: map<File, ByteString>)
    requires Database in source
    ensures Ordered(source, Plan(source))
  {
  }

  /** The first `i` files have been renamed into place; the rest wait under their staging names. */
  ghost predicate Renamed(source: map<File, ByteString>, files: Files, plan: seq<File>, i: nat) {
    && i <= |plan| && (forall f <- plan :: f in source)
    && (forall j: nat :: j < i ==> Final(plan[j]) in files && files[Final(plan[j])] == source[plan[j]] && Staged(plan[j]) !in files)
    && (forall j: nat :: i <= j < |plan| ==> Staged(plan[j]) in files && files[Staged(plan[j])] == source[plan[j]])
  }

  /** A directory with the files of both, and without the staged copies of what was carried. */
  predicate CarriedFrom(source: map<File, ByteString>, before: Files, after: Files) {
    && InPlace(source, after)
    && (forall f <- source :: Staged(f) !in after)
    && (forall n <- before :: n.file !in source ==> n in after && after[n] == before[n])
    && forall n <- after :: n.file in source || n in before
  }

  class Destination {
    /** Never written: the fallback copy of the operator. */
    const source: map<File, ByteString>
    var files: Files
    var turns: seq<Turn>
    var alive: bool
    ghost const before: Files

    constructor (source: map<File, ByteString>, files: Files, turns: seq<Turn>)
      ensures Valid() && this.source == source && this.files == before == files && this.turns == turns && alive
    {
      this.source, this.files, this.turns, alive, before := source, files, turns, true, files;
    }

    ghost predicate Valid()
      reads this
    {
      Safe(source, before, files)
    }

    /** Nothing interferes from here on. */
    ghost predicate Quiet()
      reads this
    {
      alive && turns == []
    }

    method NextTurn() returns (turn: Turn)
      modifies `turns, `alive
      ensures old(Quiet()) ==> turn == Works && Quiet()
      ensures !old(alive) ==> !alive && turn == Fails
      ensures turn.Works? ==> alive
    {
      if !alive {
        return Fails;
      }
      if turns == [] {
        return Works;
      }
      turn := turns[0];
      turns := turns[1..];
      if turn.Dies? {
        alive := false;
      }
    }

    /** `_stage`: copies one file beside its final name; a failed copy is removed again, as far as that works. */
    method Stage(f: File) returns (ok: bool)
      requires Valid() && f in source && Final(Database) !in files && Final(Database) !in before
      modifies `files, `turns, `alive
      ensures Valid() && Final(Database) !in files
      ensures forall n :: n != Staged(f) ==> (n in files <==> n in old(files)) && (n in files ==> files[n] == old(files)[n])
      ensures ok ==> Staged(f) in files && files[Staged(f)] == source[f]
      ensures old(Quiet()) ==> ok && Quiet()
    {
      var turn := NextTurn();
      if !turn.Works? {
        return false;
      }
      files := files[Staged(f) := []];
      turn := NextTurn();
      var copied := match turn
        case Works => |source[f]|
        case Fails => 0
        case Dies(n) => if n < |source[f]| then n else |source[f]|;
      files := files[Staged(f) := source[f][..copied]];
      ok := turn.Works?;
      assert copied == |source[f]| ==> source[f][..copied] == source[f];
      if ok {
        turn := NextTurn();
        ok := turn.Works?;
      }
      if !ok {
        Discard(f);
      }
    }

    method Discard(f: File)
      requires Valid() && Final(Database) !in before && f in source
      modifies `files, `turns, `alive
      ensures Valid() && forall n :: n != Staged(f) ==> (n in files <==> n in old(files)) && (n in files ==> files[n] == old(files)[n])
      ensures Staged(f) in files ==> Staged(f) in old(files) && files[Staged(f)] == old(files)[Staged(f)]
      ensures old(Quiet()) ==> Quiet() && Staged(f) !in files
    {
      var turn := NextTurn();
      if turn.Works? {
        files := files - {Staged(f)};
      }
    }

    /** `os.replace` of one staged file. */
    method Rename(f: File) returns (ok: bool)
      requires Valid() && f in source && Final(Database) !in before && Staged(f) in files && files[Staged(f)] == source[f]
      requires f == Database ==> forall g <- source :: g != Database ==> Final(g) in files && files[Final(g)] == source[g]
      requires Final(Database) !in files
      modifies `files, `turns, `alive
      ensures Valid()
      ensures files == if ok then old(files)[Final(f) := source[f]] - {Staged(f)} else old(files)
      ensures old(Quiet()) ==> ok && Quiet()
    {
      var turn := NextTurn();
      ok := turn.Works?;
      if ok {
        files := files[Final(f) := files[Staged(f)]] - {Staged(f)};
      }
    }

    /** `carry_forward_snap_state`, in a snap whose data directory is the one its state belongs in. */
    method CarryForward() returns (outcome: Outcome)
      requires Valid()
      modifies `files, `turns, `alive
      ensures Valid()
      ensures Final(Database) in old(files) ==> files == old(files) && outcome == NothingToDo
      ensures outcome == Carried ==> CarriedFrom(source, old(files), files)
      ensures outcome == NothingToDo <==> Final(Database) in old(files) || Database !in source
      ensures old(Quiet()) ==> Quiet() && outcome != Raised
    {
      if Final(Database) in files || Database !in source {
        return NothingToDo;
      }
      PlanOrder(source);
      var plan := Plan(source);
      hide Plan, Ordered, Renamed;
      var ok := StageAll(plan);
      if ok {
        ok := RenameAll(plan);
      }
      if !ok {
        return Raised;
      }
      outcome := Carried;
    }

    /** Every file is staged, or the run is given up. The log is staged together with the database: when the copy of the database fails, the copy of the log is not among what is discarded. */
    method StageAll(plan: seq<File>) returns (ok: bool)
      requires Valid() && Ordered(source, plan) && Final(Database) !in files && Final(Database) !in before
      modifies `files, `turns, `alive
      ensures Valid() && OnlySourceTouched(source, old(files), files)
      ensures ok ==> Renamed(source, files, plan, 0) && Final(Database) !in files
      ensures old(Quiet()) ==> ok && Quiet()
    {
      var i := 0;
      while i < |plan|
        invariant 0 <= i <= |plan| && Valid() && Final(Database) !in files
        invariant forall j: nat :: j < i ==> Staged(plan[j]) in files && files[Staged(plan[j])] == source[plan[j]]
        invariant OnlySourceTouched(source, old(files), files)
        invariant old(Quiet()) ==> Quiet()
      {
        assert plan[i] in plan;
        ok := Stage(plan[i]);
        if !ok {
          DiscardAll(plan, if plan[i] == Database && i > 0 && plan[i - 1] == WriteAheadLog then i - 1 else i);
          return;
        }
        i := i + 1;
      }
      ok := true;
    }

    /** Every staged file is renamed into place, the database last. */
    method RenameAll(plan: seq<File>) returns (ok: bool)
      requires Valid() && Ordered(source, plan) && Renamed(source, files, plan, 0) && Final(Database) !in files && Final(Database) !in before
      modifies `files, `turns, `alive
      ensures Valid() && OnlySourceTouched(source, old(files), files)
      ensures ok ==> Renamed(source, files, plan, |plan|)
      ensures old(Quiet()) ==> ok && Quiet()
    {
      hide Safe, Renamed, Ordered;
      var i := 0;
      PlanMembers(source, plan);
      while i < |plan|
        invariant 0 <= i <= |plan| && Valid() && Renamed(source, files, plan, i)
        invariant i < |plan| ==> Final(Database) !in files
        invariant OnlySourceTouched(source, old(files), files)
        invariant old(Quiet()) ==> Quiet()
      {
        NextToRename(source, files, plan, i);
        ghost var was := files;
        ok := Rename(plan[i]);
        if !ok {
          DiscardAll(plan, |plan|);
          return;
        }
        RenamedNext(source, was, files, plan, i);
        i := i + 1;
      }
      ok := true;
    }

    /** `_discard`: the first `k` staged copies are removed, as far as that works; nothing else is touched. */
    method DiscardAll(plan: seq<File>, k: nat)
      requires Valid() && Final(Database) !in before && k <= |plan| && forall f <- plan :: f in source
      modifies `files, `turns, `alive
      ensures Valid() && OnlySourceTouched(source, old(files), files)
      ensures forall n :: n !in (set j: nat | j < k :: Staged(plan[j])) ==>
                (n in files <==> n in old(files)) && (n in files ==> files[n] == old(files)[n])
      ensures old(Quiet()) ==> forall j: nat :: j < k ==> Staged(plan[j]) !in files
    {
      var i := 0;
      while i < k
        invariant 0 <= i <= k && Valid() && OnlySourceTouched(source, old(files), files)
        invariant forall n :: n !in (set j: nat | j < k :: Staged(plan[j])) ==>
                    (n in files <==> n in old(files)) && (n in files ==> files[n] == old(files)[n])
        invariant old(Quiet()) ==> Quiet() && forall j: nat :: j < i ==> Staged(plan[j]) !in files
      {
        assert plan[i] in plan;
        Discard(plan[i]);
        i := i + 1;
      }
    }

    /** Any number of starts, each cut short anywhere: the invariant holds after every one of them; and the first start that is not interrupted completes. */
    method Lives(starts: nat)
      requires Valid()
      modifies this
      ensures Valid()
      ensures Final(Database) in before ==> files == before
      ensures Final(Database) in files && Final(Database) !in before ==> forall f <- source :: Final(f) in files && files[Final(f)] == source[f]
    {
      for i := 0 to starts
        invariant Valid()
      {
        alive := true;
        var _ := CarryForward();
      }
    }

    /** A start nothing interrupts, after whatever happened before. */
    method LastStart() returns (outcome: Outcome)
      requires Valid()
      modifies this
      ensures Valid() && outcome != Raised
      ensures Database in source && Final(Database) !in before ==> InPlace(source, files)
      ensures Final(Database) in before ==> files == before
    {
      alive, turns := true, [];
      outcome := CarryForward();
    }
  }

  /** Nothing but the source's files, staged or final, differs. */
  ghost predicate OnlySourceTouched(source: map<File, ByteString>, before: Files, files: Files) {
    forall n: Name :: n.file !in source ==> (n in files <==> n in before) && (n in files ==> files[n] == before[n])
  }

  lemma PlanMembers(source: map<File, ByteString>, plan: seq<File>)
    requires Ordered(source, plan)
    ensures forall f <- plan :: f in source
    ensures forall i: nat :: i < |plan| && plan[i] == Database ==> i == |plan| - 1
  {
  }

  /** The next file waits under its staging name; if it is the database, everything else is in place. */
  lemma NextToRename(source: map<File, ByteString>, files: Files, plan: seq<File>, i: nat)
    requires Renamed(source, files, plan, i) && i < |plan| && Ordered(source, plan)
    ensures plan[i] in source && Staged(plan[i]) in files && files[Staged(plan[i])] == source[plan[i]]
    ensures plan[i] == Database ==> i == |plan| - 1 && forall g <- source :: g != Database ==> Final(g) in files && files[Final(g)] == source[g]
  {
    if plan[i] == Database {
      forall g <- source | g != Database
        ensures Final(g) in files && files[Final(g)] == source[g]
      {
        var j: nat :| j < |plan| && plan[j] == g;
        assert j < i;
      }
    }
  }

  lemma RenamedNext(source: map<File, ByteString>, before: Files, after: Files, plan: seq<File>, i: nat)
    requires Renamed(source, before, plan, i) && i < |plan| && after == before[Final(plan[i]) := source[plan[i]]] - {Staged(plan[i])}
    requires Ordered(source, plan)
    ensures Renamed(source, after, plan, i + 1)
  {
  }
}
