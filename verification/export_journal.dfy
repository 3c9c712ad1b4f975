/** The durable journal of checkout exports: rows, outcomes, and the states computed from them. */
module ExportJournal {
  import opened Bytes
  import opened Filesystem
  import opened Wrappers

  datatype Class = Create | Identical | Conflict
  datatype Outcome = Pending | Created | AlreadyIdentical | NotInstalled | Unknown
  datatype State = Running | Completed | Incomplete | Unresolved

  /** What the preview saw at one ancestor directory. */
  datatype Ancestor = Absent | Present(ino: Ino) | Unusable

  /** One approved destination. Its place in `Export.files` is its sequence number. The approved bytes stand for their recorded length and digest. */
  datatype FileRow = FileRow(destination: Path, kind: Class, expected: ByteString, staged: Option<Ino>, outcome: Outcome)

  datatype Export = Export(
    root: Ino,
    stagingName: Name,
    approved: map<Path, Ancestor>,
    files: seq<FileRow>,
    state: State,
    stagingDir: Option<Ino>,
    createdDirectories: set<Path>)

  predicate Delivered(o: Outcome) {
    o == Created || o == AlreadyIdentical
  }

  predicate Settled(o: Outcome) {
    o != Pending && o != Unknown
  }

  predicate Active(s: State) {
    s == Running || s == Unresolved
  }

  predicate HasUnknown(files: seq<FileRow>) {
    exists k :: 0 <= k < |files| && files[k].outcome == Unknown
  }

  predicate AllDelivered(files: seq<FileRow>) {
    forall k :: 0 <= k < |files| ==> Delivered(files[k].outcome)
  }

  // ----- Journal writes -----

  function WithStaged(e: Export, k: nat, i: Ino): Export
    requires k < |e.files|
  {
    e.(files := e.files[k := e.files[k].(staged := Some(i))])
  }

  function WithOutcome(e: Export, k: nat, o: Outcome): Export
    requires k < |e.files|
  {
    e.(files := e.files[k := e.files[k].(outcome := o)])
  }

  /** One reconciliation: its outcomes and the operation's state in one transaction. */
  function WithOutcomes(e: Export, outcomes: map<nat, Outcome>, state: State): Export {
    e.(state := state,
       files := seq(|e.files|, k requires 0 <= k < |e.files| =>
                      if k in outcomes then e.files[k].(outcome := outcomes[k]) else e.files[k]))
  }

  /** The state an operation settles into: the caller's claim, corrected by the recorded outcomes. */
  function FinishState(claimed: State, files: seq<FileRow>, stagingLeft: bool): State {
    if HasUnknown(files) then Unresolved
    else if claimed == Completed && (!AllDelivered(files) || stagingLeft) then Incomplete
    else claimed
  }

  /** The state a re-observation computes. */
  function ClassifyState(files: seq<FileRow>): State {
    if HasUnknown(files) then Unresolved else if AllDelivered(files) then Completed else Incomplete
  }

  // ----- Names in the staging directory -----

  function DecimalDigit(d: nat): char
    requires d < 10
  {
    '0' + d as char
  }

  function Decimal(k: nat): (s: string)
    ensures s != []
  {
    if k < 10 then [DecimalDigit(k)] else Decimal(k / 10) + [DecimalDigit(k % 10)]
  }

  function Pad(s: string): string
    decreases 4 - |s|
  {
    if |s| < 4 then Pad("0" + s) else s
  }

  /** The staged name of the file with sequence number `k`, zero-padded to four digits. */
  function SeqName(k: nat): Name {
    Pad(Decimal(k))
  }

  function ReadDecimal(s: string): int {
    if s == [] then 0 else 10 * ReadDecimal(s[..|s| - 1]) + (s[|s| - 1] as int - '0' as int)
  }

  lemma {:induction false} ReadBack(k: nat)
    ensures ReadDecimal(Decimal(k)) == k
  {
    if k >= 10 {
      ReadBack(k / 10);
      assert Decimal(k)[..|Decimal(k)| - 1] == Decimal(k / 10);
    } else {
      assert Decimal(k)[..0] == [];
    }
  }

  lemma {:induction false} ReadZero(s: string)
    ensures ReadDecimal("0" + s) == ReadDecimal(s)
  {
    if s != [] {
      assert ("0" + s)[..|s|] == "0" + s[..|s| - 1];
      ReadZero(s[..|s| - 1]);
    }
  }

  lemma {:induction false} ReadPad(s: string)
    ensures ReadDecimal(Pad(s)) == ReadDecimal(s)
    decreases 4 - |s|
  {
    if |s| < 4 {
      ReadPad("0" + s);
      ReadZero(s);
    }
  }

  /** Different files are staged under different names. */
  lemma SeqNamesDiffer(j: nat, k: nat)
    requires SeqName(j) == SeqName(k)
    ensures j == k
  {
    ReadPad(Decimal(j));
    ReadPad(Decimal(k));
    ReadBack(j);
    ReadBack(k);
  }

  lemma {:induction false} DecimalChars(k: nat)
    ensures forall c <- Decimal(k) :: '0' <= c <= '9'
  {
    if k >= 10 {
      DecimalChars(k / 10);
    }
  }

  lemma {:induction false} PadChars(s: string)
    requires forall c <- s :: '0' <= c <= '9'
    ensures forall c <- Pad(s) :: '0' <= c <= '9'
    ensures Pad(s) != []
    decreases 4 - |s|
  {
    if |s| < 4 {
      PadChars("0" + s);
    }
  }

  /** A staged name is neither a probe name nor one that starts with another character than a digit. */
  lemma SeqNameIsDigits(k: nat)
    ensures SeqName(k) != [] && '0' <= SeqName(k)[0] <= '9'
  {
    DecimalChars(k);
    PadChars(Decimal(k));
    assert SeqName(k)[0] in SeqName(k);
  }

  // ----- What the computed states mean -----

  /** Completed exactly when everything is delivered; unresolved exactly when something is unknown. */
  lemma ClassifyExact(files: seq<FileRow>)
    ensures ClassifyState(files) == Completed <==> forall f <- files :: Delivered(f.outcome)
    ensures ClassifyState(files) == Unresolved <==> exists f <- files :: f.outcome == Unknown
  {
    assert forall k :: 0 <= k < |files| ==> files[k] in files;
    if exists f <- files :: f.outcome == Unknown {
      var f :| f in files && f.outcome == Unknown;
      var k :| 0 <= k < |files| && files[k] == f;
      assert HasUnknown(files);
    }
    if AllDelivered(files) {
      forall f <- files
        ensures Delivered(f.outcome)
      {
        var k :| 0 <= k < |files| && files[k] == f;
      }
    }
  }
}
