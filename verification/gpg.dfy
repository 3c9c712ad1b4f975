/** Reading signing candidates from gpg's colon records. */
module SigningKeys {
  import opened Bytes
  import opened Wrappers

  /** A record is its colon-separated fields; the first names its kind. */
  type Record = seq<string>

  const UNUSABLE_VALIDITY := "idre"
  const NO_SECRET_KEY := "#"

  datatype Candidate = Candidate(fingerprint: string, keyId: string, uid: Option<string>, keygrip: string, created: string, expires: string, primaryFingerprint: string)

  /** `_field`: one-indexed, empty when the record is shorter. */
  function FieldAt(fields: Record, index: nat): string {
    if 0 < index <= |fields| then fields[index - 1] else ""
  }

  function Given(text: string): Option<string> {
    if text == "" then None else Some(text)
  }

  function Upper(text: string): (r: string)
    ensures |r| == |text|
  {
    seq(|text|, i requires 0 <= i < |text| => if 'a' <= text[i] <= 'z' then (text[i] as int - 32) as char else text[i])
  }

  /** Letters become the capitals at the same place of the alphabet, and nothing else changes. */
  lemma UpperAt(text: string, i: nat, j: nat)
    requires i < |text| && j < 26
    ensures |SMALL| == |CAPITALS| == 26 && (text[i] == SMALL[j] ==> Upper(text)[i] == CAPITALS[j])
    ensures text[i] !in SMALL ==> Upper(text)[i] == text[i]
  {
    SmallAt(j);
    CapitalAt(j);
    if 'a' <= text[i] <= 'z' {
      SmallAt(text[i] as int - 97);
      assert SMALL[text[i] as int - 97] in SMALL;
    }
  }

  function Lowercase(text: string): string {
    if text == "" then "" else (if 'a' <= text[0] <= 'z' then [text[0]] else "") + Lowercase(text[1..])
  }

  /** `_is_signing_capable` */
  predicate IsSigningCapable(fields: Record) {
    var validity := FieldAt(fields, 2);
    && !(validity != "" && validity[0] in UNUSABLE_VALIDITY)
    && FieldAt(fields, 15) != NO_SECRET_KEY
    && 's' in Lowercase(FieldAt(fields, 12))
  }

  /** Only the key's own capability letters count, which are the lowercase ones. */
  lemma {:induction false} OwnCapability(capabilities: string)
    ensures 's' in Lowercase(capabilities) <==> 's' in capabilities
  {
    if capabilities != "" {
      OwnCapability(capabilities[1..]);
    }
  }

  // ----- The scanner -----

  datatype Pending = Pending(keyId: Option<string>, created: string, expires: string, uid: Option<string>,
                             fingerprint: Option<string>, keygrip: Option<string>, primaryFingerprint: Option<string>)

  /** The parser's variables. */
  datatype Scan = Scan(candidates: seq<Candidate>, pending: Option<Pending>, primaryUid: Option<string>, primaryFpr: Option<string>, awaitingPrimaryFpr: bool)

  function Last16(text: string): string {
    if |text| <= 16 then text else text[|text| - 16..]
  }

  lemma LastSixteen(text: string)
    ensures |Last16(text)| == (if |text| < 16 then |text| else 16) && text == text[..|text| - |Last16(text)|] + Last16(text)
  {
  }

  /** What a pending key adds when it is flushed. */
  function Completed(p: Pending): seq<Candidate> {
    if p.fingerprint.Some? && p.keygrip.Some? then
      var fingerprint := p.fingerprint.value;
      [Candidate(Upper(fingerprint), if p.keyId.Some? then p.keyId.value else Upper(Last16(fingerprint)), p.uid, Upper(p.keygrip.value),
                 p.created, p.expires, Upper(if p.primaryFingerprint.Some? then p.primaryFingerprint.value else fingerprint))]
    else []
  }

  function Flush(s: Scan): Scan {
    if s.pending.None? then s else s.(candidates := s.candidates + Completed(s.pending.value), pending := None)
  }

  function NewPending(fields: Record, uid: Option<string>, primaryFpr: Option<string>): Option<Pending> {
    if IsSigningCapable(fields)
    then Some(Pending(Given(FieldAt(fields, 5)), FieldAt(fields, 6), FieldAt(fields, 7), uid, None, None, primaryFpr))
    else None
  }

  /** One record. */
  function Next(s: Scan, fields: Record): Scan {
    var record := FieldAt(fields, 1);
    if record == "sec" then
      Flush(s).(primaryUid := None, primaryFpr := None, awaitingPrimaryFpr := true, pending := NewPending(fields, None, None))
    else if record == "ssb" then
      Flush(s).(pending := NewPending(fields, s.primaryUid, s.primaryFpr))
    else if record == "fpr" then
      var value := Given(FieldAt(fields, 10));
      var first := if s.awaitingPrimaryFpr
                   then s.(primaryFpr := value, awaitingPrimaryFpr := false,
                           pending := if s.pending.Some? then Some(s.pending.value.(primaryFingerprint := value)) else None)
                   else s;
      if first.pending.Some? then first.(pending := Some(first.pending.value.(fingerprint := value))) else first
    else if record == "grp" && s.pending.Some? then
      s.(pending := Some(s.pending.value.(keygrip := Given(FieldAt(fields, 10)))))
    else if record == "uid" then
      var uid := Given(FieldAt(fields, 10));
      var named := if s.primaryUid.None?
                   then s.(primaryUid := uid,
                           pending := if s.pending.Some? && s.pending.value.uid.None? then Some(s.pending.value.(uid := uid)) else s.pending)
                   else s;
      Flush(named)
    else s
  }

  const START := Scan([], None, None, None, false)

  function ScanAll(s: Scan, records: seq<Record>): Scan {
    if records == [] then s else Next(ScanAll(s, records[..|records| - 1]), records[|records| - 1])
  }

  /** Everything found so far, with what is still pending. */
  function Found(s: Scan): seq<Candidate> {
    Flush(s).candidates
  }

  /** `parse_candidates` */
  method ParseCandidates(records: seq<Record>) returns (candidates: seq<Candidate>)
    ensures candidates == Found(ScanAll(START, records))
  {
    candidates := [];
    var pending: Option<Pending> := None;
    var primaryUid: Option<string>, primaryFpr: Option<string> := None, None;
    var awaitingPrimaryFpr := false;
    var i := 0;
    while i < |records|
      invariant 0 <= i <= |records|
      invariant Scan(candidates, pending, primaryUid, primaryFpr, awaitingPrimaryFpr) == ScanAll(START, records[..i])
    {
      assert records[..i + 1][..i] == records[..i];
      var fields := records[i];
      var record := FieldAt(fields, 1);
      if record == "sec" || record == "ssb" {
        if pending.Some? {
          candidates := candidates + Completed(pending.value);
        }
        if record == "sec" {
          primaryUid, primaryFpr, awaitingPrimaryFpr := None, None, true;
        }
        pending := NewPending(fields, primaryUid, primaryFpr);
      } else if record == "fpr" {
        var value := Given(FieldAt(fields, 10));
        if awaitingPrimaryFpr {
          primaryFpr, awaitingPrimaryFpr := value, false;
          if pending.Some? {
            pending := Some(pending.value.(primaryFingerprint := value));
          }
        }
        if pending.Some? {
          pending := Some(pending.value.(fingerprint := value));
        }
      } else if record == "grp" && pending.Some? {
        pending := Some(pending.value.(keygrip := Given(FieldAt(fields, 10))));
      } else if record == "uid" {
        var uid := Given(FieldAt(fields, 10));
        if primaryUid.None? {
          primaryUid := uid;
          if pending.Some? && pending.value.uid.None? {
            pending := Some(pending.value.(uid := uid));
          }
        }
        if pending.Some? {
          candidates := candidates + Completed(pending.value);
          pending := None;
        }
      }
      i := i + 1;
    }
    assert records[..|records|] == records;
    if pending.Some? {
      candidates := candidates + Completed(pending.value);
    }
  }

  // ----- Keyrings, as gpg prints them -----

  datatype Key = Key(validity: string, keyId: string, created: string, expires: string, capabilities: string, token: string, fingerprint: string, keygrip: string)

  /** A primary key with its user ids and subkeys. */
  datatype Primary = Primary(key: Key, uids: seq<string>, subkeys: seq<Key>)

  function KeyRecord(kind: string, k: Key): Record {
    [kind, k.validity, "", "", k.keyId, k.created, k.expires, "", "", "", "", k.capabilities, "", "", k.token]
  }

  function ValueRecord(kind: string, value: string): Record {
    [kind, "", "", "", "", "", "", "", "", value]
  }

  function PrintKey(kind: string, k: Key): seq<Record> {
    [KeyRecord(kind, k), ValueRecord("fpr", k.fingerprint), ValueRecord("grp", k.keygrip)]
  }

  function PrintUids(uids: seq<string>): seq<Record> {
    if uids == [] then [] else PrintUids(uids[..|uids| - 1]) + [ValueRecord("uid", uids[|uids| - 1])]
  }

  function PrintSubkeys(subkeys: seq<Key>): seq<Record> {
    if subkeys == [] then [] else PrintSubkeys(subkeys[..|subkeys| - 1]) + PrintKey("ssb", subkeys[|subkeys| - 1])
  }

  function PrintPrimary(p: Primary): seq<Record> {
    PrintKey("sec", p.key) + PrintUids(p.uids) + PrintSubkeys(p.subkeys)
  }

  function Print(keyring: seq<Primary>): seq<Record> {
    if keyring == [] then [] else Print(keyring[..|keyring| - 1]) + PrintPrimary(keyring[|keyring| - 1])
  }

  /** Fingerprints and keygrips are there, and every primary has a user id, not an empty one first. */
  predicate KeyComplete(k: Key) {
    k.fingerprint != "" && k.keygrip != ""
  }

  predicate Complete(p: Primary) {
    KeyComplete(p.key) && (forall k <- p.subkeys :: KeyComplete(k)) && p.uids != [] && p.uids[0] != ""
  }

  /** Neither invalid, disabled, revoked nor expired, with its secret half, and able to sign by itself. */
  predicate Capable(k: Key) {
    && (k.validity == "" || (k.validity[0] != 'i' && k.validity[0] != 'd' && k.validity[0] != 'r' && k.validity[0] != 'e'))
    && k.token != "#" && 's' in k.capabilities
  }

  /** The candidate of a capable key: its own fingerprint and keygrip, its primary's fingerprint and first user id. */
  function CandidateOf(k: Key, primary: Primary): seq<Candidate>
    requires primary.uids != []
  {
    if Capable(k) then
      [Candidate(Upper(k.fingerprint), if k.keyId == "" then Upper(Last16(k.fingerprint)) else k.keyId, Some(primary.uids[0]), Upper(k.keygrip),
                 k.created, k.expires, Upper(primary.key.fingerprint))]
    else []
  }

  function CandidatesOfSubkeys(subkeys: seq<Key>, primary: Primary): seq<Candidate>
    requires primary.uids != []
  {
    if subkeys == [] then [] else CandidatesOfSubkeys(subkeys[..|subkeys| - 1], primary) + CandidateOf(subkeys[|subkeys| - 1], primary)
  }

  function Candidates(keyring: seq<Primary>): seq<Candidate>
    requires forall p <- keyring :: Complete(p)
  {
    if keyring == [] then []
    else
      var last := keyring[|keyring| - 1];
      assert last in keyring;
      CompleteHasUid(last);
      Candidates(keyring[..|keyring| - 1]) + (CandidateOf(last.key, last) + CandidatesOfSubkeys(last.subkeys, last))
  }

  // ----- Scanning what was printed -----

  lemma {:induction false} ScanSplit(s: Scan, a: seq<Record>, b: seq<Record>)
    ensures ScanAll(s, a + b) == ScanAll(ScanAll(s, a), b)
    decreases |b|
  {
    hide Next;
    if b == [] {
      assert a + b == a;
    } else {
      assert (a + b)[..|a + b| - 1] == a + b[..|b| - 1];
      ScanSplit(s, a, b[..|b| - 1]);
    }
  }

  lemma ScanThree(s: Scan, a: Record, b: Record, c: Record)
    ensures ScanAll(s, [a, b, c]) == Next(Next(Next(s, a), b), c)
  {
    hide Next;
    assert [a, b, c][..2] == [a, b] && [a, b][..1] == [a] && [a][..0] == [];
    assert ScanAll(s, [a]) == Next(s, a);
    assert ScanAll(s, [a, b]) == Next(Next(s, a), b);
  }

  lemma CapableRecord(kind: string, k: Key)
    ensures IsSigningCapable(KeyRecord(kind, k)) == Capable(k)
  {
    OwnCapability(k.capabilities);
  }

  /** Past a primary's user ids: its first user id and fingerprint are known, and nothing of it is pending. */
  predicate KnowsPrimary(s: Scan, p: Primary) {
    p.uids != [] && s.primaryUid == Some(p.uids[0]) && s.primaryFpr == Some(p.key.fingerprint) && !s.awaitingPrimaryFpr
  }

  lemma SubkeyScanned(s: Scan, k: Key, p: Primary)
    requires KnowsPrimary(s, p) && KeyComplete(k)
    ensures var t := ScanAll(s, PrintKey("ssb", k)); KnowsPrimary(t, p) && Found(t) == Found(s) + CandidateOf(k, p)
  {
    ScanThree(s, KeyRecord("ssb", k), ValueRecord("fpr", k.fingerprint), ValueRecord("grp", k.keygrip));
    CapableRecord("ssb", k);
    hide IsSigningCapable, Capable, Upper, Last16;
  }

  lemma {:induction false} SubkeysScanned(s: Scan, subkeys: seq<Key>, p: Primary)
    requires KnowsPrimary(s, p) && forall k <- subkeys :: KeyComplete(k)
    ensures var t := ScanAll(s, PrintSubkeys(subkeys)); KnowsPrimary(t, p) && Found(t) == Found(s) + CandidatesOfSubkeys(subkeys, p)
  {
    hide Next, CandidateOf, KnowsPrimary, Found;
    if subkeys != [] {
      var front, last := subkeys[..|subkeys| - 1], subkeys[|subkeys| - 1];
      SubkeysScanned(s, front, p);
      ScanSplit(s, PrintSubkeys(front), PrintKey("ssb", last));
      assert last in subkeys;
      SubkeyScanned(ScanAll(s, PrintSubkeys(front)), last, p);
      assert KnowsPrimary(s, p) ==> p.uids != [] by { PrimaryHasUid(s, p); }
    } else {
      assert Found(s) + [] == Found(s);
    }
  }

  lemma PrimaryHasUid(s: Scan, p: Primary)
    ensures KnowsPrimary(s, p) ==> p.uids != []
  {
  }

  /** After a primary's own records: it is pending if it is capable, and its fingerprint is known. */
  lemma PrimaryScanned(s: Scan, p: Primary)
    requires Complete(p)
    ensures var t := ScanAll(s, PrintKey("sec", p.key));
            && t.candidates == Found(s) && t.primaryUid == None && t.primaryFpr == Some(p.key.fingerprint) && !t.awaitingPrimaryFpr
            && t.pending == if Capable(p.key)
                            then Some(Pending(Given(p.key.keyId), p.key.created, p.key.expires, None, Some(p.key.fingerprint), Some(p.key.keygrip), Some(p.key.fingerprint)))
                            else None
  {
    ScanThree(s, KeyRecord("sec", p.key), ValueRecord("fpr", p.key.fingerprint), ValueRecord("grp", p.key.keygrip));
    CapableRecord("sec", p.key);
    hide IsSigningCapable, Capable, Upper, Last16;
  }

  lemma {:induction false} UidsScanned(s: Scan, p: Primary, n: nat)
    requires Complete(p) && 0 < n <= |p.uids|
    requires s.primaryUid == None && s.primaryFpr == Some(p.key.fingerprint) && !s.awaitingPrimaryFpr
    requires s.pending == if Capable(p.key)
                          then Some(Pending(Given(p.key.keyId), p.key.created, p.key.expires, None, Some(p.key.fingerprint), Some(p.key.keygrip), Some(p.key.fingerprint)))
                          else None
    ensures var t := ScanAll(s, PrintUids(p.uids[..n])); KnowsPrimary(t, p) && t.pending.None? && t.candidates == s.candidates + CandidateOf(p.key, p)
  {
    hide Capable, Upper, Last16;
    assert p.uids[..n][..n - 1] == p.uids[..n - 1];
    if n == 1 {
      assert PrintUids(p.uids[..0]) == [];
      assert PrintUids(p.uids[..1]) == [ValueRecord("uid", p.uids[0])];
      assert [ValueRecord("uid", p.uids[0])][..0] == [];
    } else {
      UidsScanned(s, p, n - 1);
      ScanSplit(s, PrintUids(p.uids[..n - 1]), [ValueRecord("uid", p.uids[n - 1])]);
      OneMore(ScanAll(s, PrintUids(p.uids[..n - 1])), ValueRecord("uid", p.uids[n - 1]));
    }
  }

  lemma OneMore(s: Scan, r: Record)
    ensures ScanAll(s, [r]) == Next(s, r)
  {
    assert [r][..0] == [];
  }

  lemma WholePrimaryScanned(s: Scan, p: Primary)
    requires Complete(p)
    ensures Found(ScanAll(s, PrintPrimary(p))) == Found(s) + (CandidateOf(p.key, p) + CandidatesOfSubkeys(p.subkeys, p))
  {
    hide Next, CandidateOf, CandidatesOfSubkeys, Capable;
    var head := ScanAll(s, PrintKey("sec", p.key));
    PrimaryScanned(s, p);
    ScanSplit(s, PrintKey("sec", p.key), PrintUids(p.uids));
    assert p.uids[..|p.uids|] == p.uids;
    UidsScanned(head, p, |p.uids|);
    var named := ScanAll(head, PrintUids(p.uids));
    ScanSplit(s, PrintKey("sec", p.key) + PrintUids(p.uids), PrintSubkeys(p.subkeys));
    SubkeysScanned(named, p.subkeys, p);
  }

  /** Whatever the keyring, scanning what gpg prints finds exactly the signing-capable keys, in order, each with its own fingerprint and keygrip and its primary's fingerprint and first user id, whether or not the primary itself can sign. */
  lemma {:induction false} ParsePrint(keyring: seq<Primary>)
    requires forall p <- keyring :: Complete(p)
    ensures Found(ScanAll(START, Print(keyring))) == Candidates(keyring)
  {
    hide Next, CandidateOf, CandidatesOfSubkeys, Complete, Found, PrintPrimary;
    if keyring == [] {
      assert Found(START) == [] by {
        NothingFound();
      }
    } else {
      var front, last := keyring[..|keyring| - 1], keyring[|keyring| - 1];
      assert last in keyring;
      ParsePrint(front);
      ScanSplit(START, Print(front), PrintPrimary(last));
      WholePrimaryScanned(ScanAll(START, Print(front)), last);
      CompleteHasUid(last);
    }
  }

  lemma NothingFound()
    ensures Found(START) == []
  {
  }

  lemma CompleteHasUid(p: Primary)
    requires Complete(p)
    ensures p.uids != []
  {
  }

  // ----- Other records -----

  /** The record kinds the parser looks at. */
  predicate Relevant(r: Record) {
    FieldAt(r, 1) in {"sec", "ssb", "fpr", "grp", "uid"}
  }

  function RelevantOf(records: seq<Record>): seq<Record> {
    if records == [] then []
    else RelevantOf(records[..|records| - 1]) + if Relevant(records[|records| - 1]) then [records[|records| - 1]] else []
  }

  /** Records of other kinds may stand anywhere. */
  lemma {:induction false} OtherRecordsIgnored(s: Scan, records: seq<Record>)
    ensures ScanAll(s, records) == ScanAll(s, RelevantOf(records))
  {
    if records != [] {
      var front, last := records[..|records| - 1], records[|records| - 1];
      OtherRecordsIgnored(s, front);
      assert !Relevant(last) ==> Next(ScanAll(s, front), last) == ScanAll(s, front);
      hide Next, Relevant;
      if Relevant(last) {
        ScanSplit(s, RelevantOf(front), [last]);
        OneMore(ScanAll(s, RelevantOf(front)), last);
      } else {
        assert RelevantOf(records) == RelevantOf(front);
      }
    }
  }
}
