/** Which attached bundles a launch can install, judged from their paths alone and against the tree they are to be installed in. */
module HandoffPlan {
  import opened Bytes
  import opened Wrappers
  import Paths

  const MAX_ATTACHMENTS := 128
  const MAX_FILES := 128
  const MAX_TOTAL_BYTES := 8388608

  /** One file of a bundle; the bytes stand for their recorded length and digest. */
  datatype AttachedFile = AttachedFile(path: string, content: ByteString)

  datatype Attachment = Attachment(resultId: string, files: seq<AttachedFile>)

  datatype DestinationPlan = DestinationPlan(paths: set<string>, totalBytes: nat, fileCount: nat)

  // ----- What a selection must satisfy -----

  function AllFiles(attachments: seq<Attachment>): seq<AttachedFile> {
    if attachments == [] then [] else AllFiles(attachments[..|attachments| - 1]) + attachments[|attachments| - 1].files
  }

  function TotalBytes(files: seq<AttachedFile>): nat {
    if files == [] then 0 else TotalBytes(files[..|files| - 1]) + |files[|files| - 1].content|
  }

  function Destination(f: AttachedFile): Paths.Result<string> {
    Paths.Validate(f.path)
  }

  predicate Usable(f: AttachedFile) {
    Destination(f).Ok? && Destination(f).value !in Paths.RESERVED_ROOT_FILES
  }

  /** Different revisions, and none of them empty. */
  ghost predicate Revisions(attachments: seq<Attachment>) {
    && (forall i: nat, j: nat :: i < j < |attachments| ==> attachments[i].resultId != attachments[j].resultId)
    && forall a <- attachments :: a.files != []
  }

  /** Usable destinations, pairwise different. */
  ghost predicate Separate(files: seq<AttachedFile>) {
    && (forall f <- files :: Usable(f))
    && forall i: nat, j: nat :: i < j < |files| ==> Destination(files[i]) != Destination(files[j])
  }

  /** No destination is among the directories another path asks for. */
  ghost predicate NoFileIsDirectory(files: seq<AttachedFile>) {
    forall f <- files, g <- files :: Destination(f).Ok? ==> Destination(f).value !in Paths.Ancestors(g.path)
  }

  ghost predicate Acceptable(attachments: seq<Attachment>) {
    var files := AllFiles(attachments);
    && |attachments| <= MAX_ATTACHMENTS && Revisions(attachments)
    && Separate(files) && NoFileIsDirectory(files)
    && |files| <= MAX_FILES && TotalBytes(files) <= MAX_TOTAL_BYTES
  }

  // ----- plan_destinations -----

  /** The revisions are different and none is empty. */
  method CheckRevisions(attachments: seq<Attachment>) returns (ok: bool)
    ensures ok <==> Revisions(attachments)
  {
    var seen: set<string> := {};
    var i := 0;
    while i < |attachments|
      invariant 0 <= i <= |attachments|
      invariant forall id :: id in seen <==> exists j :: 0 <= j < i && attachments[j].resultId == id
      invariant forall j: nat, k: nat :: j < k < i ==> attachments[j].resultId != attachments[k].resultId
      invariant forall j: nat :: j < i ==> attachments[j].files != []
    {
      if attachments[i].resultId in seen || attachments[i].files == [] {
        assert attachments[i] in attachments;
        return false;
      }
      seen := seen + {attachments[i].resultId};
      i := i + 1;
    }
    ok := true;
  }

  /** What the loops over the bundles have gathered from `files`. */
  ghost predicate Gathered(files: seq<AttachedFile>, owner: map<string, string>, total: nat, count: nat) {
    && Separate(files) && count == |files| && total == TotalBytes(files)
    && forall path :: path in owner <==> exists f <- files :: Destination(f) == Paths.Ok(path)
  }

  ghost predicate GatheredDirectories(files: seq<AttachedFile>, directories: map<string, string>) {
    forall path :: path in directories <==> exists f <- files :: path in Paths.Ancestors(f.path)
  }

  lemma GatherOne(files: seq<AttachedFile>, f: AttachedFile, owner: map<string, string>, total: nat, count: nat, id: string)
    requires Gathered(files, owner, total, count) && Usable(f) && Destination(f).value !in owner
    ensures Gathered(files + [f], owner[Destination(f).value := id], total + |f.content|, count + 1)
  {
    hide Destination;
    var more := files + [f];
    assert more[..|more| - 1] == files;
    forall path
      ensures path in owner[Destination(f).value := id] <==> exists g <- more :: Destination(g) == Paths.Ok(path)
    {
      if path in owner {
        var g :| g in files && Destination(g) == Paths.Ok(path);
        assert g in more;
      }
      assert f in more;
    }
  }

  lemma TakenTwice(files: seq<AttachedFile>, f: AttachedFile, owner: map<string, string>, total: nat, count: nat, rest: seq<AttachedFile>)
    requires Gathered(files, owner, total, count)
    requires !Usable(f) || Destination(f).value in owner
    ensures !Separate(files + [f] + rest)
  {
    hide Destination;
    var all := files + [f] + rest;
    assert all[|files|] == f && f in all;
    if Usable(f) {
      var g :| g in files && Destination(g) == Paths.Ok(Destination(f).value);
      var i :| 0 <= i < |files| && files[i] == g;
      assert all[i] == g;
    }
  }

  /** The files of one bundle: each gets a destination nobody has taken. */
  method GatherBundle(attachment: Attachment, ghost before: seq<AttachedFile>, owner0: map<string, string>, total0: nat, count0: nat)
    returns (ok: bool, owner: map<string, string>, total: nat, count: nat)
    requires Gathered(before, owner0, total0, count0)
    ensures ok ==> Gathered(before + attachment.files, owner, total, count)
    ensures !ok ==> forall rest :: !Separate(before + attachment.files + rest)
  {
    hide Destination, Gathered, Separate, Usable;
    ok, owner, total, count := true, owner0, total0, count0;
    var i := 0;
    assert before + attachment.files[..0] == before;
    while i < |attachment.files|
      invariant 0 <= i <= |attachment.files|
      invariant Gathered(before + attachment.files[..i], owner, total, count)
    {
      var f := attachment.files[i];
      if !UsableNow(f) || Destination(f).value in owner {
        forall rest
          ensures !Separate(before + attachment.files + rest)
        {
          TakenTwice(before + attachment.files[..i], f, owner, total, count, attachment.files[i + 1..] + rest);
          assert before + attachment.files + rest == before + attachment.files[..i] + [f] + (attachment.files[i + 1..] + rest);
        }
        return false, owner, total, count;
      }
      GatherOne(before + attachment.files[..i], f, owner, total, count, attachment.resultId);
      assert before + attachment.files[..i + 1] == before + attachment.files[..i] + [f];
      owner := owner[Destination(f).value := attachment.resultId];
      total := total + |f.content|;
      count := count + 1;
      i := i + 1;
    }
    assert attachment.files[..|attachment.files|] == attachment.files;
  }

  predicate UsableNow(f: AttachedFile)
    ensures UsableNow(f) == Usable(f) && (UsableNow(f) ==> Destination(f).Ok?)
  {
    Usable(f)
  }

  /** The directories one bundle asks for. */
  method GatherDirectories(attachment: Attachment, ghost before: seq<AttachedFile>, directories0: map<string, string>)
    returns (directories: map<string, string>)
    requires GatheredDirectories(before, directories0)
    ensures GatheredDirectories(before + attachment.files, directories)
  {
    hide Paths.Ancestors;
    directories := directories0;
    var i := 0;
    assert before + attachment.files[..0] == before;
    while i < |attachment.files|
      invariant 0 <= i <= |attachment.files|
      invariant GatheredDirectories(before + attachment.files[..i], directories)
    {
      var f := attachment.files[i];
      ghost var was := directories;
      directories := map path | path in directories.Keys + Paths.Ancestors(f.path) ::
        if path in directories then directories[path] else attachment.resultId;
      assert before + attachment.files[..i + 1] == before + attachment.files[..i] + [f];
      i := i + 1;
    }
    assert attachment.files[..|attachment.files|] == attachment.files;
  }

  lemma {:induction false} FilesOfPrefix(attachments: seq<Attachment>, i: nat)
    requires i < |attachments|
    ensures AllFiles(attachments[..i + 1]) == AllFiles(attachments[..i]) + attachments[i].files
  {
    var upTo := attachments[..i + 1];
    assert upTo[..|upTo| - 1] == attachments[..i];
  }

  /** The files of the first `i` bundles start the list of all files. */
  lemma {:induction false} PrefixOfFiles(attachments: seq<Attachment>, i: nat)
    requires i <= |attachments|
    ensures exists rest :: AllFiles(attachments) == AllFiles(attachments[..i]) + rest
    decreases |attachments| - i
  {
    if i == |attachments| {
      assert attachments[..i] == attachments;
      assert AllFiles(attachments) == AllFiles(attachments[..i]) + [];
    } else {
      PrefixOfFiles(attachments, i + 1);
      FilesOfPrefix(attachments, i);
      var rest :| AllFiles(attachments) == AllFiles(attachments[..i + 1]) + rest;
      assert AllFiles(attachments) == AllFiles(attachments[..i]) + (attachments[i].files + rest);
    }
  }

  /** `plan_destinations`: accepts exactly the acceptable selections. */
  method PlanDestinations(attachments: seq<Attachment>) returns (plan: Paths.Result<DestinationPlan>)
    ensures plan.Ok? <==> Acceptable(attachments)
    ensures plan.Ok? ==>
              && plan.value.fileCount == |AllFiles(attachments)| && plan.value.totalBytes == TotalBytes(AllFiles(attachments))
              && forall path :: path in plan.value.paths <==> exists f <- AllFiles(attachments) :: Destination(f) == Paths.Ok(path)
  {
    hide Separate, Gathered, GatheredDirectories, Destination, Revisions;
    if |attachments| > MAX_ATTACHMENTS {
      return Paths.Err;
    }
    var distinct := CheckRevisions(attachments);
    if !distinct {
      return Paths.Err;
    }
    var owner: map<string, string>, directories: map<string, string> := map[], map[];
    var total: nat, count: nat := 0, 0;
    NothingGathered();
    var i := 0;
    while i < |attachments|
      invariant 0 <= i <= |attachments|
      invariant Gathered(AllFiles(attachments[..i]), owner, total, count)
      invariant GatheredDirectories(AllFiles(attachments[..i]), directories)
    {
      FilesOfPrefix(attachments, i);
      var ok;
      ok, owner, total, count := GatherBundle(attachments[i], AllFiles(attachments[..i]), owner, total, count);
      if !ok {
        PrefixOfFiles(attachments, i + 1);
        return Paths.Err;
      }
      directories := GatherDirectories(attachments[i], AllFiles(attachments[..i]), directories);
      i := i + 1;
    }
    assert attachments[..|attachments|] == attachments;
    Crossing(AllFiles(attachments), owner, directories, total, count);
    if exists path <- owner.Keys :: path in directories {
      return Paths.Err;
    }
    if count > MAX_FILES || total > MAX_TOTAL_BYTES {
      return Paths.Err;
    }
    plan := Paths.Ok(DestinationPlan(owner.Keys, total, count));
  }

  lemma NothingGathered()
    ensures Gathered([], map[], 0, 0) && GatheredDirectories([], map[])
  {
  }

  lemma Crossing(files: seq<AttachedFile>, owner: map<string, string>, directories: map<string, string>, total: nat, count: nat)
    requires Gathered(files, owner, total, count) && GatheredDirectories(files, directories)
    ensures NoFileIsDirectory(files) <==> !exists path <- owner.Keys :: path in directories
    ensures Separate(files) && count == |files| && total == TotalBytes(files)
    ensures forall path :: path in owner <==> exists f <- files :: Destination(f) == Paths.Ok(path)
  {
    hide Paths.Ancestors, Separate, Destination;
    if path :| path in owner.Keys && path in directories {
      var f :| f in files && Destination(f) == Paths.Ok(path);
      var g :| g in files && path in Paths.Ancestors(g.path);
    }
    if f, g :| f in files && g in files && Destination(f).Ok? && Destination(f).value in Paths.Ancestors(g.path) {
      assert Destination(f).value in owner.Keys && Destination(f).value in directories;
    }
  }

  // ----- Sums and concatenation -----

  lemma {:induction false} TotalSplit(files: seq<AttachedFile>, more: seq<AttachedFile>)
    ensures TotalBytes(files + more) == TotalBytes(files) + TotalBytes(more)
  {
    if more == [] {
      assert files + more == files;
    } else {
      assert (files + more)[..|files + more| - 1] == files + more[..|more| - 1];
      TotalSplit(files, more[..|more| - 1]);
    }
  }

  lemma {:induction false} FilesSplit(a: seq<Attachment>, b: seq<Attachment>)
    ensures AllFiles(a + b) == AllFiles(a) + AllFiles(b)
  {
    if b == [] {
      assert a + b == a;
    } else {
      assert (a + b)[..|a + b| - 1] == a + b[..|b| - 1];
      FilesSplit(a, b[..|b| - 1]);
    }
  }

  // ----- Order does not matter -----

  /** A bundle without the order of its files. */
  datatype Bundle = Bundle(resultId: string, files: multiset<AttachedFile>)

  function Unordered(a: Attachment): Bundle {
    Bundle(a.resultId, multiset(a.files))
  }

  /** A selection without any order. */
  function Bundles(attachments: seq<Attachment>): multiset<Bundle> {
    if attachments == [] then multiset{}
    else Bundles(attachments[..|attachments| - 1]) + multiset{Unordered(attachments[|attachments| - 1])}
  }

  function Ids(attachments: seq<Attachment>): seq<string> {
    seq(|attachments|, i requires 0 <= i < |attachments| => attachments[i].resultId)
  }

  lemma {:induction false} BundlesSplit(a: seq<Attachment>, b: seq<Attachment>)
    ensures Bundles(a + b) == Bundles(a) + Bundles(b)
    decreases |b|
  {
    if b == [] {
      assert a + b == a;
    } else {
      assert (a + b)[..|a + b| - 1] == a + b[..|b| - 1];
      BundlesSplit(a, b[..|b| - 1]);
    }
  }

  lemma {:induction false} FindBundle(attachments: seq<Attachment>, x: Bundle) returns (i: nat)
    requires x in Bundles(attachments)
    ensures i < |attachments| && Unordered(attachments[i]) == x
  {
    var n := |attachments| - 1;
    if Unordered(attachments[n]) == x {
      i := n;
    } else {
      i := FindBundle(attachments[..n], x);
    }
  }

  lemma TakeOut<T>(s: seq<T>, i: nat) returns (others: seq<T>)
    requires i < |s|
    ensures others == s[..i] + s[i + 1..] && multiset(s) == multiset(others) + multiset{s[i]}
  {
    others := s[..i] + s[i + 1..];
    assert s == s[..i] + [s[i]] + s[i + 1..];
  }

  lemma TakeLast<T>(s: seq<T>)
    requires s != []
    ensures multiset(s) == multiset(s[..|s| - 1]) + multiset{s[|s| - 1]} && s[|s| - 1] in multiset(s)
  {
    assert s == s[..|s| - 1] + [s[|s| - 1]];
  }

  lemma FilesAround(before: seq<Attachment>, x: Attachment, after: seq<Attachment>)
    ensures AllFiles(before + [x] + after) == AllFiles(before) + x.files + AllFiles(after)
    ensures AllFiles(before + after) == AllFiles(before) + AllFiles(after)
  {
    FilesSplit(before + [x], after);
    FilesSplit(before, [x]);
    FilesSplit(before, after);
    assert [x][..0] == [];
    assert AllFiles([x]) == [] + x.files == x.files;
  }

  lemma BundlesAround(before: seq<Attachment>, x: Attachment, after: seq<Attachment>)
    ensures Bundles(before + [x] + after) == Bundles(before + after) + multiset{Unordered(x)}
  {
    BundlesSplit(before + [x], after);
    BundlesSplit(before, [x]);
    BundlesSplit(before, after);
    assert [x][..0] == [] && Bundles([x]) == multiset{Unordered(x)};
  }

  lemma IdsAround(before: seq<Attachment>, x: Attachment, after: seq<Attachment>)
    ensures multiset(Ids(before + [x] + after)) == multiset(Ids(before + after)) + multiset{x.resultId}
  {
    assert Ids(before + [x] + after) == Ids(before) + [x.resultId] + Ids(after);
    assert Ids(before + after) == Ids(before) + Ids(after);
  }

  lemma BundlesWithout(attachments: seq<Attachment>, i: nat) returns (others: seq<Attachment>)
    requires i < |attachments|
    ensures others == attachments[..i] + attachments[i + 1..]
    ensures Bundles(attachments) == Bundles(others) + multiset{Unordered(attachments[i])}
    ensures multiset(AllFiles(attachments)) == multiset(AllFiles(others)) + multiset(attachments[i].files)
    ensures multiset(Ids(attachments)) == multiset(Ids(others)) + multiset{attachments[i].resultId}
    ensures forall a <- attachments :: a in others || a == attachments[i]
  {
    hide Bundles, AllFiles, Ids, Unordered;
    var before, x, after := attachments[..i], attachments[i], attachments[i + 1..];
    others := before + after;
    assert attachments == before + [x] + after;
    FilesAround(before, x, after);
    BundlesAround(before, x, after);
    IdsAround(before, x, after);
  }

  lemma {:induction false} BundlesCount(attachments: seq<Attachment>)
    ensures |Bundles(attachments)| == |attachments|
  {
    if attachments != [] {
      BundlesCount(attachments[..|attachments| - 1]);
    }
  }

  lemma Cancel<T>(a: multiset<T>, b: multiset<T>, x: T)
    requires a + multiset{x} == b + multiset{x}
    ensures a == b
  {
    assert a == a + multiset{x} - multiset{x} == b + multiset{x} - multiset{x} == b;
  }

  lemma SameSize<T>(s: seq<T>, t: seq<T>)
    requires multiset(s) == multiset(t)
    ensures |s| == |t|
  {
    assert |multiset(s)| == |s| && |multiset(t)| == |t|;
  }

  lemma {:induction false} SameContents(a: seq<Attachment>, b: seq<Attachment>)
    requires Bundles(a) == Bundles(b)
    ensures |a| == |b| && multiset(AllFiles(a)) == multiset(AllFiles(b)) && multiset(Ids(a)) == multiset(Ids(b))
    ensures (forall x <- a :: x.files != []) ==> forall x <- b :: x.files != []
  {
    BundlesCount(a);
    BundlesCount(b);
    if a == [] {
      assert b == [];
    } else {
      var n := |a| - 1;
      assert Unordered(a[n]) in Bundles(a);
      hide AllFiles, Ids, Bundles;
      var front := BundlesWithout(a, n);
      var j := FindBundle(b, Unordered(a[n]));
      var others := BundlesWithout(b, j);
      Cancel(Bundles(front), Bundles(others), Unordered(a[n]));
      SameContents(front, others);
    }
  }

  ghost predicate NoneTwice<T(!new)>(s: seq<T>) {
    forall i: nat, j: nat :: i < j < |s| ==> s[i] != s[j]
  }

  lemma Twice<T>(s: seq<T>, i: nat, j: nat)
    requires i < j < |s| && s[i] == s[j]
    ensures multiset(s)[s[i]] >= 2
  {
    assert s == s[..j] + [s[j]] + s[j + 1..];
    assert s[i] in s[..j];
  }

  lemma FindTwice<T>(s: seq<T>, x: T) returns (i: nat, j: nat)
    requires multiset(s)[x] >= 2
    ensures i < j < |s| && s[i] == x && s[j] == x
  {
    var k: nat :| k < |s| && s[k] == x;
    assert s == s[..k] + [x] + s[k + 1..];
    var rest := s[..k] + s[k + 1..];
    assert multiset(s) == multiset(rest) + multiset{x};
    assert x in multiset(rest) && x in rest;
    var m: nat :| m < |rest| && rest[m] == x;
    if m < k {
      assert s[m] == x;
      i, j := m, k;
    } else {
      assert s[m + 1] == x;
      i, j := k, m + 1;
    }
  }

  lemma NoneTwiceAnyOrder<T(!new)>(s: seq<T>, t: seq<T>)
    requires multiset(s) == multiset(t) && NoneTwice(s)
    ensures NoneTwice(t)
  {
    forall i: nat, j: nat | i < j < |t|
      ensures t[i] != t[j]
    {
      if t[i] == t[j] {
        Twice(t, i, j);
        var k, m := FindTwice(s, t[i]);
      }
    }
  }

  lemma SameMembers<T>(s: seq<T>, t: seq<T>)
    requires multiset(s) == multiset(t)
    ensures forall x :: x in s <==> x in t
  {
    forall x
      ensures x in s <==> x in t
    {
      assert x in s <==> x in multiset(s);
      assert x in t <==> x in multiset(t);
    }
  }

  /** The last element of a sequence, taken out of a rearrangement. */
  lemma LastTaken<T>(s: seq<T>, t: seq<T>) returns (j: nat, others: seq<T>)
    requires multiset(s) == multiset(t) && s != []
    ensures j < |t| && t[j] == s[|s| - 1] && t == t[..j] + [t[j]] + t[j + 1..]
    ensures others == t[..j] + t[j + 1..] && multiset(s[..|s| - 1]) == multiset(others)
  {
    var n := |s| - 1;
    TakeLast(s);
    assert s[n] in t by {
      SameMembers(s, t);
    }
    j :| 0 <= j < |t| && t[j] == s[n];
    others := TakeOut(t, j);
    Cancel(multiset(s[..n]), multiset(others), s[n]);
  }

  lemma SeparateAnyOrder(s: seq<AttachedFile>, t: seq<AttachedFile>)
    requires multiset(s) == multiset(t) && Separate(s)
    ensures Separate(t)
  {
    hide Usable, Destination;
    SameMembers(s, t);
    assert NoneTwice(s);
    NoneTwiceAnyOrder(s, t);
    forall i: nat, j: nat | i < j < |t|
      ensures Destination(t[i]) != Destination(t[j])
    {
      assert t[i] in s && t[j] in s;
      var k: nat :| k < |s| && s[k] == t[i];
      var m: nat :| m < |s| && s[m] == t[j];
      assert k != m;
      if k < m {
        assert Destination(s[k]) != Destination(s[m]);
      } else {
        assert Destination(s[m]) != Destination(s[k]);
      }
    }
  }

  lemma {:induction false} TotalAnyOrder(s: seq<AttachedFile>, t: seq<AttachedFile>)
    requires multiset(s) == multiset(t)
    ensures TotalBytes(s) == TotalBytes(t)
  {
    SameSize(s, t);
    if s != [] {
      var j, others := LastTaken(s, t);
      TotalAnyOrder(s[..|s| - 1], others);
      TotalAround(t[..j], t[j], t[j + 1..]);
    }
  }

  lemma TotalAround(before: seq<AttachedFile>, x: AttachedFile, after: seq<AttachedFile>)
    ensures TotalBytes(before + [x] + after) == TotalBytes(before + after) + |x.content|
  {
    TotalSplit(before + [x], after);
    TotalSplit(before, [x]);
    TotalSplit(before, after);
    assert [x][..0] == [] && TotalBytes([x]) == |x.content|;
  }

  lemma AcceptableAnyOrder(a: seq<Attachment>, b: seq<Attachment>)
    requires Bundles(a) == Bundles(b) && Acceptable(a)
    ensures Acceptable(b)
  {
    hide Usable, Destination, Separate, NoneTwice;
    SameContents(a, b);
    var s, t := AllFiles(a), AllFiles(b);
    assert NoneTwice(Ids(a)) by {
      IdsOnce(a);
    }
    NoneTwiceAnyOrder(Ids(a), Ids(b));
    OnceIds(b);
    SeparateAnyOrder(s, t);
    SameMembers(s, t);
    TotalAnyOrder(s, t);
    assert |s| == |multiset(s)| == |multiset(t)| == |t|;
  }

  lemma IdsOnce(attachments: seq<Attachment>)
    requires Revisions(attachments)
    ensures NoneTwice(Ids(attachments))
  {
  }

  lemma OnceIds(attachments: seq<Attachment>)
    requires NoneTwice(Ids(attachments)) && forall a <- attachments :: a.files != []
    ensures Revisions(attachments)
  {
    forall i: nat, j: nat | i < j < |attachments|
      ensures attachments[i].resultId != attachments[j].resultId
    {
      assert Ids(attachments)[i] != Ids(attachments)[j];
    }
  }

  /** Neither the order of the bundles nor the order of the files in them matters, for the verdict or for what is planned. */
  lemma OrderIndependent(a: seq<Attachment>, b: seq<Attachment>)
    requires Bundles(a) == Bundles(b)
    ensures Acceptable(a) <==> Acceptable(b)
    ensures multiset(AllFiles(a)) == multiset(AllFiles(b))
    ensures TotalBytes(AllFiles(a)) == TotalBytes(AllFiles(b)) && |AllFiles(a)| == |AllFiles(b)|
  {
    SameContents(a, b);
    TotalAnyOrder(AllFiles(a), AllFiles(b));
    assert |AllFiles(a)| == |multiset(AllFiles(a))| == |multiset(AllFiles(b))| == |AllFiles(b)|;
    if Acceptable(a) {
      AcceptableAnyOrder(a, b);
    }
    if Acceptable(b) {
      AcceptableAnyOrder(b, a);
    }
  }

  /** That covers every rearrangement of the bundles. */
  lemma {:induction false} PermutedBundles(a: seq<Attachment>, b: seq<Attachment>)
    requires multiset(a) == multiset(b)
    ensures Bundles(a) == Bundles(b)
  {
    SameSize(a, b);
    if a != [] {
      var j, others := LastTaken(a, b);
      PermutedBundles(a[..|a| - 1], others);
      BundlesAround(b[..j], b[j], b[j + 1..]);
    }
  }

  /** And every rearrangement of the files inside one. */
  lemma PermutedFiles(a: seq<Attachment>, i: nat, files: seq<AttachedFile>)
    requires i < |a| && multiset(files) == multiset(a[i].files)
    ensures Bundles(a) == Bundles(a[i := a[i].(files := files)])
  {
    var b := a[i := a[i].(files := files)];
    var x := BundlesWithout(a, i);
    var y := BundlesWithout(b, i);
    assert x == y;
  }

  // ----- What acceptance means for the paths themselves -----

  /** One file would have to be a directory above the other. */
  ghost predicate Above(f: AttachedFile, g: AttachedFile) {
    Destination(f).Ok? && Destination(g).Ok? && Destination(f).value in Paths.Ancestors(Destination(g).value)
  }

  ghost predicate Compatible(files: seq<AttachedFile>) {
    forall f <- files, g <- files :: !Above(f, g)
  }

  /** Manifest paths are canonical; then the directories looked at are those of the destinations. */
  lemma CanonicalCompatible(files: seq<AttachedFile>)
    requires forall f <- files :: Paths.Canonical(f.path)
    ensures NoFileIsDirectory(files) <==> Compatible(files)
    ensures forall f <- files :: Destination(f) == Paths.Ok(f.path)
  {
    forall f <- files
      ensures Destination(f) == Paths.Ok(f.path)
    {
      Paths.ValidateExact(f.path);
    }
  }

  /** For any accepted paths: what the check misses is exactly a file under another's destination whose own path was given with a space in front. */
  lemma MissedExactly(files: seq<AttachedFile>)
    requires forall f <- files :: Usable(f)
    ensures NoFileIsDirectory(files) <==> forall f <- files, g <- files :: Above(f, g) ==> Paths.StartsWithSpace(g.path)
    ensures (forall f <- files :: !Paths.StartsWithSpace(f.path)) ==> (NoFileIsDirectory(files) <==> Compatible(files))
  {
    hide Paths.Ancestors, Paths.Canonical, Paths.Validate;
    forall f <- files, g <- files
      ensures Destination(f).value in Paths.Ancestors(g.path) <==> Above(f, g) && !Paths.StartsWithSpace(g.path)
    {
      Paths.ValidateExact(f.path);
      Paths.AncestorsGiven(g.path, Destination(f).value);
    }
    hide Destination, Usable;
  }

  lemma OneLetter(c: char)
    requires 'a' <= c <= 'z'
    ensures Paths.Canonical([c])
  {
    Paths.SplitOne([c]);
    assert [c][1..] == "" && Paths.Utf8Length([c]) == 1;
  }

  lemma NestedParts()
    ensures Paths.Split("x/y") == ["x", "y"] && Paths.Split(" x/y") == [" x", "y"]
  {
    Paths.SplitJoin(["x", "y"]);
    Paths.SplitJoin([" x", "y"]);
    assert ["x", "y"][1..] == ["y"] && [" x", "y"][1..] == ["y"];
    assert Paths.Join(["y"]) == "y";
    assert "x" + "/" + "y" == "x/y" && " x" + "/" + "y" == " x/y";
  }

  lemma NestedBytes()
    ensures Paths.Utf8Length("x/y") == 3
  {
    assert "x/y"[1..] == "/y" && "/y"[1..] == "y" && "y"[1..] == "";
    assert Paths.Utf8Length("y") == 1 && Paths.Utf8Length("/y") == 2;
  }

  lemma Nested()
    ensures Paths.Canonical("x/y") && Paths.Split("x/y") == ["x", "y"] && Paths.Split(" x/y") == [" x", "y"]
  {
    NestedParts();
    NestedBytes();
    hide Paths.Split, Paths.Utf8Length;
  }

  lemma StripFront()
    ensures Paths.Strip(" x/y") == "x/y"
  {
    assert " x/y"[1..] == "x/y";
    assert Paths.StripLeft("x/y") == "x/y";
  }

  /** The directories are taken from the paths as given, the destinations from the stripped ones: with a path that is not canonical a file and its own ancestor can both be accepted. */
  lemma StrippedAncestorMissed()
    ensures var files := [AttachedFile("x", []), AttachedFile(" x/y", [])];
            Separate(files) && NoFileIsDirectory(files) && !Compatible(files)
  {
    hide Paths.Canonical, Paths.Strip, Paths.Validate;
    var f, g := AttachedFile("x", []), AttachedFile(" x/y", []);
    var files := [f, g];
    OneLetter('x');
    Nested();
    StripFront();
    Paths.ValidateExact("x");
    Paths.ValidateExact(" x/y");
    Paths.SplitOne("x");
    Paths.AncestorsArePrefixes("x", " x/y");
    Paths.AncestorsArePrefixes("x/y", " x/y");
    Paths.AncestorsArePrefixes("x", "x");
    Paths.AncestorsArePrefixes("x/y", "x");
    Paths.AncestorsArePrefixes("x", "x/y");
    assert Destination(f) == Paths.Ok("x") && Destination(g) == Paths.Ok("x/y");
    assert f in files && g in files;
    hide Paths.Ancestors, Destination;
    assert !Compatible(files);
  }

  // ----- The target tree -----

  datatype Kind = TreeKind | BlobKind | CommitKind
  datatype Mode = Ordinary | Symlink | Submodule

  /** One line of a tree reading. */
  datatype TreeEntry = TreeEntry(mode: Mode, kind: Kind, path: string)

  datatype Reason =
    | DestinationIsDirectory | DestinationSymlink | DestinationSubmodule | DestinationTracked
    | AncestorSymlink | AncestorSubmodule | AncestorNotADirectory

  datatype Refusal = Refusal(reason: Reason, path: string)

  /** `by_path`: the last entry of each path. */
  function ByPath(entries: seq<TreeEntry>): map<string, TreeEntry> {
    if entries == [] then map[] else ByPath(entries[..|entries| - 1])[entries[|entries| - 1].path := entries[|entries| - 1]]
  }

  /** The last line of the reading that speaks of `path` is `e`. */
  ghost predicate LastLine(entries: seq<TreeEntry>, path: string, e: TreeEntry) {
    exists i: nat :: i < |entries| && entries[i] == e && e.path == path && NotAfter(entries, i, path)
  }

  ghost predicate NotAfter(entries: seq<TreeEntry>, i: nat, path: string) {
    forall j: nat :: i < j < |entries| ==> entries[j].path != path
  }

  lemma {:induction false} ByPathExact(entries: seq<TreeEntry>, path: string, e: TreeEntry)
    ensures LastLine(entries, path, e) <==> path in ByPath(entries) && ByPath(entries)[path] == e
  {
    if entries != [] {
      var front, last := entries[..|entries| - 1], entries[|entries| - 1];
      ByPathExact(front, path, e);
      if last.path == path {
        assert NotAfter(entries, |entries| - 1, path);
        assert forall i: nat :: i < |entries| - 1 ==> !NotAfter(entries, i, path);
      } else {
        assert forall i: nat :: i < |front| ==> (NotAfter(front, i, path) <==> NotAfter(entries, i, path));
        assert forall i: nat :: i < |front| ==> front[i] == entries[i];
      }
    }
  }

  /** A destination that the reading leaves free: it says nothing of the path, and nothing but directories of what is above it. */
  ghost predicate Vacant(entries: seq<TreeEntry>, path: string) {
    && (forall e :: !LastLine(entries, path, e))
    && forall a, e :: a in Paths.Ancestors(path) && LastLine(entries, a, e) ==> e.kind == TreeKind
  }

  lemma VacantExact(entries: seq<TreeEntry>, path: string)
    ensures FreeIn(ByPath(entries), path) <==> Vacant(entries, path)
  {
    hide LastLine, ByPath, Paths.Ancestors;
    forall p, e
      ensures LastLine(entries, p, e) <==> p in ByPath(entries) && ByPath(entries)[p] == e
    {
      ByPathExact(entries, p, e);
    }
    if path in ByPath(entries) {
      assert LastLine(entries, path, ByPath(entries)[path]);
    }
    if Vacant(entries, path) {
      forall a | a in Paths.Ancestors(path) && a in ByPath(entries)
        ensures ByPath(entries)[a].kind == TreeKind
      {
        assert LastLine(entries, a, ByPath(entries)[a]);
      }
    }
  }

  /** A refusal gives the reason that the reading has for it, at the destination or above it. */
  ghost predicate Explained(entries: seq<TreeEntry>, r: Refusal) {
    || (exists e :: LastLine(entries, r.path, e) && SaysOf(r.reason, e))
    || ((forall e :: !LastLine(entries, r.path, e))
        && exists a, e :: a in Paths.Ancestors(r.path) && LastLine(entries, a, e) && e.kind != TreeKind && SaysOfAncestor(r.reason, e))
  }

  lemma JustifiedIsExplained(entries: seq<TreeEntry>, r: Refusal)
    requires Justified(ByPath(entries), r)
    ensures Explained(entries, r)
  {
    hide LastLine, ByPath, Paths.Ancestors, SaysOf, SaysOfAncestor;
    forall p, e
      ensures LastLine(entries, p, e) <==> p in ByPath(entries) && ByPath(entries)[p] == e
    {
      ByPathExact(entries, p, e);
    }
    var byPath := ByPath(entries);
    if r.path in byPath {
      assert LastLine(entries, r.path, byPath[r.path]);
    } else {
      var a :| a in Paths.Ancestors(r.path) && a in byPath && byPath[a].kind != TreeKind && SaysOfAncestor(r.reason, byPath[a]);
      assert LastLine(entries, a, byPath[a]);
    }
  }

  /** A destination is free: nothing is there, and everything above it that is there is a directory. */
  ghost predicate FreeIn(byPath: map<string, TreeEntry>, path: string) {
    path !in byPath && forall a :: a in Paths.Ancestors(path) && a in byPath ==> byPath[a].kind == TreeKind
  }

  function DestinationReason(e: TreeEntry): Reason {
    if e.kind == TreeKind then DestinationIsDirectory
    else match e.mode
      case Symlink => DestinationSymlink
      case Submodule => DestinationSubmodule
      case Ordinary => DestinationTracked
  }

  function AncestorReason(e: TreeEntry): Reason {
    match e.mode
    case Symlink => AncestorSymlink
    case Submodule => AncestorSubmodule
    case Ordinary => AncestorNotADirectory
  }

  /** A refusal names an obstacle that is really there. */
  ghost predicate Justified(byPath: map<string, TreeEntry>, r: Refusal) {
    if r.path in byPath then SaysOf(r.reason, byPath[r.path])
    else exists a :: a in Paths.Ancestors(r.path) && a in byPath && byPath[a].kind != TreeKind && SaysOfAncestor(r.reason, byPath[a])
  }

  /** What a reason says of the entry at a destination. */
  ghost predicate SaysOf(reason: Reason, e: TreeEntry) {
    match reason
    case DestinationIsDirectory => e.kind == TreeKind
    case DestinationSymlink => e.kind != TreeKind && e.mode == Symlink
    case DestinationSubmodule => e.kind != TreeKind && e.mode == Submodule
    case DestinationTracked => e.kind != TreeKind && e.mode == Ordinary
    case _ => false
  }

  /** What a reason says of the entry at an ancestor. */
  ghost predicate SaysOfAncestor(reason: Reason, e: TreeEntry) {
    match reason
    case AncestorSymlink => e.mode == Symlink
    case AncestorSubmodule => e.mode == Submodule
    case AncestorNotADirectory => e.mode == Ordinary
    case _ => false
  }

  /** The first ancestor in the way, outermost first. */
  method FirstObstacle(byPath: map<string, TreeEntry>, path: string) returns (r: Option<Refusal>)
    requires path !in byPath
    ensures r.None? <==> FreeIn(byPath, path)
    ensures r.Some? ==> r.value.path == path && Justified(byPath, r.value)
  {
    var parts := Paths.Split(path);
    var m := 1;
    while m < |parts|
      invariant 1 <= m <= |parts|
      invariant forall j: nat :: 0 < j < m && Paths.Join(parts[..j]) in byPath ==> byPath[Paths.Join(parts[..j])].kind == TreeKind
    {
      var ancestor := Paths.Join(parts[..m]);
      if ancestor in byPath && byPath[ancestor].kind != TreeKind {
        assert ancestor in Paths.Ancestors(path);
        return Some(Refusal(AncestorReason(byPath[ancestor]), path));
      }
      m := m + 1;
    }
    r := None;
  }

  /** `classify_target_entries`: one justified refusal for every destination that is not free, and none for the others. */
  method ClassifyTargetEntries(destinations: seq<string>, entries: seq<TreeEntry>) returns (conflicts: seq<Refusal>)
    ensures forall r <- conflicts :: r.path in destinations && Explained(entries, r)
    ensures forall d <- destinations :: Vacant(entries, d) <==> forall r <- conflicts :: r.path != d
    ensures conflicts == [] <==> forall d <- destinations :: Vacant(entries, d)
  {
    hide ByPath, Justified, FreeIn, Vacant, Explained;
    var byPath := ByPath(entries);
    conflicts := [];
    var i := 0;
    while i < |destinations|
      invariant 0 <= i <= |destinations|
      invariant forall r <- conflicts :: r.path in destinations[..i] && Justified(byPath, r)
      invariant forall r <- conflicts :: !FreeIn(byPath, r.path)
      invariant forall d <- destinations[..i] :: FreeIn(byPath, d) || exists r <- conflicts :: r.path == d
    {
      var path := destinations[i];
      assert destinations[..i + 1] == destinations[..i] + [path];
      ghost var before := conflicts;
      if path in byPath {
        conflicts := conflicts + [Refusal(DestinationReason(byPath[path]), path)];
        NotFree(byPath, path);
        assert conflicts[|before|] in conflicts;
      } else {
        var obstacle := FirstObstacle(byPath, path);
        if obstacle.Some? {
          conflicts := conflicts + [obstacle.value];
          assert conflicts[|before|] in conflicts;
        }
      }
      assert forall r <- before :: r in conflicts;
      i := i + 1;
    }
    assert destinations[..|destinations|] == destinations;
    assert conflicts != [] ==> conflicts[0] in conflicts && !FreeIn(byPath, conflicts[0].path);
    forall d
      ensures FreeIn(byPath, d) <==> Vacant(entries, d)
    {
      VacantExact(entries, d);
    }
    forall r <- conflicts
      ensures Explained(entries, r)
    {
      JustifiedIsExplained(entries, r);
    }
  }

  lemma NotFree(byPath: map<string, TreeEntry>, path: string)
    requires path in byPath
    ensures !FreeIn(byPath, path) && Justified(byPath, Refusal(DestinationReason(byPath[path]), path))
  {
  }

  /** `observation_paths`: the destinations and all their ancestors. */
  function ObservationPaths(destinations: set<string>): (wanted: set<string>)
    ensures forall d, a :: d in destinations && a in Paths.Ancestors(d) ==> a in wanted
    ensures destinations <= wanted
  {
    destinations + set d, a | d in destinations && a in Paths.Ancestors(d) :: a
  }

  // ----- Keys of the retained bytes -----

  function PayloadKey(resultId: string, path: string): string {
    resultId + ['\U{0}'] + path
  }

  /** Different files have different keys, because no revision id contains a NUL. */
  lemma PayloadKeysDiffer(a: string, p: string, b: string, q: string)
    requires '\U{0}' !in a && '\U{0}' !in b && PayloadKey(a, p) == PayloadKey(b, q)
    ensures a == b && p == q
  {
    var x, y := PayloadKey(a, p), PayloadKey(b, q);
    assert x[|a|] == '\U{0}' && y[|b|] == '\U{0}';
    assert forall i :: 0 <= i < |a| ==> x[i] == a[i] && a[i] in a;
    assert forall i :: 0 <= i < |b| ==> y[i] == b[i] && b[i] in b;
    assert |a| == |b|;
    assert x[..|a|] == a && y[..|b|] == b && x[|a| + 1..] == p && y[|b| + 1..] == q;
  }
}
