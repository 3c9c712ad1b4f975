/** From a selection of manifest paths to an approved export: destinations, the read-only observation, and what an unblocked preview promises. */
module ExportPreview {
  import opened Bytes
  import opened Filesystem
  import opened ExportJournal
  import opened ExportSafety
  import opened ExportTree
  import opened ExportCourse
  import opened Wrappers
  import Paths

  const MAX_FILE_BYTES := 1048576

  // ----- Selection -----

  function StripSlashes(s: string): string {
    if s != [] && s[|s| - 1] == '/' then StripSlashes(s[..|s| - 1]) else s
  }

  ghost predicate Slashes(s: string) {
    forall c <- s :: c == '/'
  }

  lemma {:induction false} StripSlashesExact(s: string) returns (slashes: string)
    ensures s == StripSlashes(s) + slashes && Slashes(slashes)
    ensures StripSlashes(s) == "" || StripSlashes(s)[|StripSlashes(s)| - 1] != '/'
  {
    if s != [] && s[|s| - 1] == '/' {
      var rest := StripSlashesExact(s[..|s| - 1]);
      slashes := rest + [s[|s| - 1]];
      assert s == s[..|s| - 1] + [s[|s| - 1]];
    } else {
      slashes := [];
    }
  }

  lemma {:induction false} StripSlashesPadded(s: string, slashes: string)
    requires Slashes(slashes) && (s == "" || s[|s| - 1] != '/')
    ensures StripSlashes(s + slashes) == s
  {
    if slashes == [] {
      assert s + slashes == s;
    } else {
      var front, last := slashes[..|slashes| - 1], slashes[|slashes| - 1];
      assert last in slashes && (s + slashes)[..|s + slashes| - 1] == s + front && (s + slashes)[|s + slashes| - 1] == last;
      assert forall c <- front :: c in slashes;
      StripSlashesPadded(s, front);
    }
  }

  /** `normalize_prefix` */
  function NormalizePrefix(prefix: string): (r: Paths.Result<string>)
    ensures r.Ok? ==> r.value == "" || Paths.Canonical(r.value)
  {
    var text := Paths.Strip(prefix);
    if text != [] && text[0] == '/' then Paths.Err
    else if StripSlashes(text) == "" then Paths.Ok("")
    else
      Paths.ValidateExact(StripSlashes(text));
      Paths.Validate(StripSlashes(text))
  }

  /** A way to write a directory: its canonical path with spaces around it, slashes behind it and spaces again. */
  ghost predicate Spelled(prefix: string, a: string, path: string, b: string, slashes: string, c: string) {
    && prefix == a + (path + b + slashes) + c && (slashes == "" ==> b == "")
    && Paths.Spaces(a) && Paths.Spaces(b) && Slashes(slashes) && Paths.Spaces(c)
  }

  /** A prefix is read as the canonical path it spells, and as the root exactly if it is blank; everything else is refused. */
  lemma PrefixExact(prefix: string, path: string)
    ensures NormalizePrefix(prefix) == Paths.Ok(path) <==>
              (if path == "" then Paths.Spaces(prefix) else Paths.Canonical(path) && exists a, b, slashes, c :: Spelled(prefix, a, path, b, slashes, c))
  {
    if path == "" {
      PrefixBlank(prefix);
    } else if NormalizePrefix(prefix) == Paths.Ok(path) {
      var a, b, slashes, c := PrefixSpelled(prefix, path);
      assert Spelled(prefix, a, path, b, slashes, c);
    } else if Paths.Canonical(path) {
      forall a, b, slashes, c | Spelled(prefix, a, path, b, slashes, c)
        ensures false
      {
        SpelledIsRead(prefix, a, path, b, slashes, c);
      }
    }
  }

  lemma PrefixBlank(prefix: string)
    ensures NormalizePrefix(prefix) == Paths.Ok("") <==> Paths.Spaces(prefix)
  {
    var text := Paths.Strip(prefix);
    BlankIsEmpty(prefix);
    hide Paths.Strip, Paths.Spaces;
    if text != "" {
      var slashes := StripSlashesExact(text);
      assert StripSlashes(text) == "" ==> text == slashes && text[0] in slashes;
      Paths.ValidateExact(StripSlashes(text));
    }
  }

  lemma BlankIsEmpty(prefix: string)
    ensures Paths.Strip(prefix) == "" <==> Paths.Spaces(prefix)
  {
    Paths.StripExact(prefix, "");
    if Paths.Spaces(prefix) {
      assert Paths.Padded(prefix, prefix, "", "");
    }
    if Paths.Strip(prefix) == "" {
      var a, b :| Paths.Padded(prefix, a, "", b);
      assert prefix == a + b;
    }
  }

  lemma PrefixSpelled(prefix: string, path: string) returns (a: string, b: string, slashes: string, c: string)
    requires path != "" && NormalizePrefix(prefix) == Paths.Ok(path)
    ensures Paths.Canonical(path) && Spelled(prefix, a, path, b, slashes, c)
  {
    var text := Paths.Strip(prefix);
    Paths.StripExact(prefix, text);
    a, c :| Paths.Padded(prefix, a, text, c);
    slashes := StripSlashesExact(text);
    var core := StripSlashes(text);
    Paths.ValidateExact(core);
    Paths.StripExact(core, path);
    hide Paths.Strip, Paths.Validate, Paths.Canonical, NormalizePrefix, StripSlashes, Paths.Spaces, Slashes;
    var front;
    front, b :| Paths.Padded(core, front, path, b);
    InnerPads(text, front, path, b, slashes);
    assert core == path + b;
  }

  lemma InnerPads(text: string, front: string, path: string, b: string, slashes: string)
    requires Paths.Stripped(text) && text == front + path + b + slashes && Paths.Spaces(front) && Paths.Spaces(b)
    ensures front == "" && (slashes == "" ==> b == "") && text == path + b + slashes
  {
    assert text == front + (path + b + slashes);
    Paths.NoSpaceInFront(front, path + b + slashes);
    if slashes == "" {
      assert text == path + b;
      Paths.NoSpaceBehind(path, b);
    }
  }

  lemma SpelledIsRead(prefix: string, a: string, path: string, b: string, slashes: string, c: string)
    requires Paths.Canonical(path) && Spelled(prefix, a, path, b, slashes, c)
    ensures NormalizePrefix(prefix) == Paths.Ok(path)
  {
    var core, text := path + b, path + b + slashes;
    if path[|path| - 1] == '/' {
      Paths.SlashBehind(path);
      assert false;
    }
    if slashes != "" {
      assert slashes[|slashes| - 1] in slashes && text[|text| - 1] == slashes[|slashes| - 1];
    } else {
      assert text == path;
    }
    assert text[0] == path[0] && Paths.Stripped(text);
    Paths.StripPadded(a, text, c);
    if b != "" {
      assert b[|b| - 1] in b && core[|core| - 1] == b[|b| - 1];
    } else {
      assert core == path;
    }
    StripSlashesPadded(core, slashes);
    assert Paths.Spaces("") && core == "" + path + b;
    Paths.StripPadded("", path, b);
    Paths.ValidateExact(core);
  }

  function Combined(prefix: string, path: string): string {
    if prefix == "" then path else prefix + "/" + path
  }

  function Destination(prefix: string, path: string): Paths.Result<string> {
    Paths.Validate(Combined(prefix, path))
  }

  predicate Usable(prefix: string, path: string) {
    Destination(prefix, path).Ok? && Destination(prefix, path).value !in Paths.RESERVED_ROOT_FILES
  }

  /** What a selection must satisfy. */
  ghost predicate Selectable(manifest: map<string, ByteString>, paths: seq<string>, prefix: string) {
    && paths != []
    && (forall i: nat, j: nat :: i < j < |paths| ==> paths[i] != paths[j])
    && (forall p <- paths :: p in manifest && Usable(prefix, p))
    && (forall p <- paths, q <- paths :: Destination(prefix, p).value !in Paths.Ancestors(Destination(prefix, q).value))
  }

  ghost predicate CanonicalManifest(manifest: map<string, ByteString>) {
    forall p :: p in manifest ==> Paths.Canonical(p)
  }

  /** The directory entries a path names when it is taken below a prefix. */
  ghost function Under(prefix: string, path: string): Path {
    (if prefix == "" then [] else Paths.Split(prefix)) + Paths.Split(path)
  }

  ghost predicate Admissible(p: Path) {
    Paths.Canonical(Paths.Join(p)) && Paths.Join(p) !in Paths.RESERVED_ROOT_FILES
  }

  /** The selections to accept: different files of the manifest, each with an admissible place below the prefix, and no place on the way to another. */
  ghost predicate Acceptable(manifest: map<string, ByteString>, paths: seq<string>, prefix: string) {
    && paths != []
    && (forall i: nat, j: nat :: i < j < |paths| ==> paths[i] != paths[j])
    && (forall p <- paths :: p in manifest && Admissible(Under(prefix, p)))
    && (forall p <- paths, q <- paths :: !(Under(prefix, p) < Under(prefix, q)))
  }

  lemma UnderJoined(prefix: string, p: string)
    ensures Paths.Join(Under(prefix, p)) == Combined(prefix, p) && Paths.Split(Combined(prefix, p)) == Under(prefix, p)
  {
    if prefix == "" {
      assert Under(prefix, p) == Paths.Split(p);
    } else {
      Paths.SplitBoth(prefix, p);
    }
    Paths.JoinSplit(Combined(prefix, p));
  }

  /** A canonical path below a canonical prefix has as its destination the entries of both, one after the other, if they are a canonical path, and none otherwise. */
  lemma DestinationUnder(prefix: string, p: string)
    requires (prefix == "" || Paths.Canonical(prefix)) && Paths.Canonical(p)
    ensures Destination(prefix, p).Ok? <==> Paths.Canonical(Paths.Join(Under(prefix, p)))
    ensures Destination(prefix, p).Ok? ==> Paths.Split(Destination(prefix, p).value) == Under(prefix, p)
    ensures Usable(prefix, p) <==> Admissible(Under(prefix, p))
  {
    UnderJoined(prefix, p);
    assert Paths.Stripped(Combined(prefix, p));
    Paths.StripStripped(Combined(prefix, p));
    Paths.ValidateExact(Combined(prefix, p));
  }

  lemma SelectableIsAcceptable(manifest: map<string, ByteString>, paths: seq<string>, prefix: string)
    requires (prefix == "" || Paths.Canonical(prefix)) && CanonicalManifest(manifest)
    ensures Selectable(manifest, paths, prefix) <==> Acceptable(manifest, paths, prefix)
    ensures Selectable(manifest, paths, prefix) ==> forall p <- paths :: Paths.Split(Destination(prefix, p).value) == Under(prefix, p)
  {
    hide Destination, Paths.Canonical, Under, Admissible, Paths.Ancestors, Usable;
    forall p <- paths | p in manifest
      ensures Usable(prefix, p) <==> Admissible(Under(prefix, p))
      ensures Usable(prefix, p) ==> Destination(prefix, p).Ok? && Paths.Split(Destination(prefix, p).value) == Under(prefix, p)
    {
      UsableUnder(prefix, p);
    }
    forall p <- paths, q <- paths | p in manifest && q in manifest && Usable(prefix, p) && Usable(prefix, q)
      ensures Destination(prefix, p).value in Paths.Ancestors(Destination(prefix, q).value) <==> Under(prefix, p) < Under(prefix, q)
    {
      Paths.AncestorsArePrefixes(Destination(prefix, p).value, Destination(prefix, q).value);
    }
  }

  lemma UsableUnder(prefix: string, p: string)
    requires (prefix == "" || Paths.Canonical(prefix)) && Paths.Canonical(p)
    ensures Usable(prefix, p) <==> Admissible(Under(prefix, p))
    ensures Usable(prefix, p) ==> Destination(prefix, p).Ok? && Paths.Split(Destination(prefix, p).value) == Under(prefix, p)
  {
    hide Destination, Paths.Canonical, Under;
    DestinationUnder(prefix, p);
  }

  /** The paths are different, and in the manifest. */
  method CheckPaths(manifest: map<string, ByteString>, paths: seq<string>) returns (ok: bool)
    ensures ok <==> (forall i: nat, j: nat :: i < j < |paths| ==> paths[i] != paths[j]) && forall p <- paths :: p in manifest
  {
    var seen: set<string> := {};
    var i := 0;
    while i < |paths|
      invariant 0 <= i <= |paths| && seen == set p | p in paths[..i]
      invariant forall j: nat, k: nat :: j < k < i ==> paths[j] != paths[k]
      invariant forall p <- paths[..i] :: p in manifest
    {
      if paths[i] in seen {
        assert exists j :: 0 <= j < i && paths[j] == paths[i];
        return false;
      }
      if paths[i] !in manifest {
        assert paths[i] in paths;
        return false;
      }
      assert paths[..i + 1] == paths[..i] + [paths[i]];
      seen := seen + {paths[i]};
      i := i + 1;
    }
    assert paths[..|paths|] == paths;
    ok := true;
  }

  /** Every path has a usable destination. */
  method GiveDestinations(paths: seq<string>, prefix: string) returns (r: Paths.Result<map<string, string>>)
    ensures r.Ok? <==> forall p <- paths :: Usable(prefix, p)
    ensures r.Ok? ==> r.value.Keys == (set p | p in paths) && forall p <- paths :: r.value[p] == Destination(prefix, p).value
  {
    hide Destination;
    var destinations: map<string, string> := map[];
    var i := 0;
    while i < |paths|
      invariant 0 <= i <= |paths| && destinations.Keys == set p | p in paths[..i]
      invariant forall p <- paths[..i] :: Usable(prefix, p) && destinations[p] == Destination(prefix, p).value
    {
      if Destination(prefix, paths[i]).Err? || Destination(prefix, paths[i]).value in Paths.RESERVED_ROOT_FILES {
        assert paths[i] in paths && !Usable(prefix, paths[i]);
        return Paths.Err;
      }
      assert paths[..i + 1] == paths[..i] + [paths[i]];
      destinations := destinations[paths[i] := Destination(prefix, paths[i]).value];
      i := i + 1;
    }
    assert paths[..|paths|] == paths;
    r := Paths.Ok(destinations);
  }

  /** No destination is on the way to another. */
  method CheckApart(paths: seq<string>, destinations: map<string, string>) returns (ok: bool)
    requires destinations.Keys == set p | p in paths
    ensures ok <==> forall p <- paths, q <- paths :: destinations[p] !in Paths.Ancestors(destinations[q])
  {
    hide Paths.Ancestors;
    var directories := set p, a | p in destinations && a in Paths.Ancestors(destinations[p]) :: a;
    var i := 0;
    while i < |paths|
      invariant 0 <= i <= |paths|
      invariant forall p <- paths[..i] :: destinations[p] !in directories
    {
      if destinations[paths[i]] in directories {
        var q, a :| q in destinations && a in Paths.Ancestors(destinations[q]) && a == destinations[paths[i]];
        assert paths[i] in paths && q in paths;
        return false;
      }
      assert paths[..i + 1] == paths[..i] + [paths[i]];
      i := i + 1;
    }
    assert paths[..|paths|] == paths;
    ok := true;
  }

  /** `plan_selection`: accepts exactly the selectable lists, and gives every selected path its destination. */
  method PlanSelection(manifest: map<string, ByteString>, paths: seq<string>, prefix: string)
    returns (r: Paths.Result<map<string, string>>)
    ensures r.Ok? <==> Selectable(manifest, paths, prefix)
    ensures r.Ok? ==> r.value.Keys == (set p | p in paths) && forall p <- paths :: r.value[p] == Destination(prefix, p).value
    ensures (prefix == "" || Paths.Canonical(prefix)) && CanonicalManifest(manifest) ==>
              (r.Ok? <==> Acceptable(manifest, paths, prefix))
              && (r.Ok? ==> forall p <- paths :: Paths.Split(r.value[p]) == Under(prefix, p))
  {
    if (prefix == "" || Paths.Canonical(prefix)) && CanonicalManifest(manifest) {
      SelectableIsAcceptable(manifest, paths, prefix);
    }
    hide Destination, Paths.Ancestors, Paths.Canonical, CanonicalManifest, Acceptable, Under, Usable;
    if paths == [] {
      return Paths.Err;
    }
    var listed := CheckPaths(manifest, paths);
    if !listed {
      return Paths.Err;
    }
    r := GiveDestinations(paths, prefix);
    if r.Ok? {
      var apart := CheckApart(paths, r.value);
      if !apart {
        r := Paths.Err;
      }
    }
  }

  /** Manifest paths are canonical; then a prefix keeps them apart. */
  lemma DestinationsDiffer(prefix: string, p: string, q: string)
    requires prefix == "" || Paths.Canonical(prefix)
    requires Paths.Canonical(p) && Paths.Canonical(q) && p != q
    requires Destination(prefix, p).Ok? && Destination(prefix, q).Ok?
    ensures Destination(prefix, p).value != Destination(prefix, q).value
  {
    DestinationIs(prefix, p);
    DestinationIs(prefix, q);
    if prefix != "" {
      assert Combined(prefix, p)[|prefix| + 1..] == p;
      assert Combined(prefix, q)[|prefix| + 1..] == q;
    }
  }

  lemma DestinationIs(prefix: string, p: string)
    requires prefix == "" || Paths.Canonical(prefix)
    requires Paths.Canonical(p) && Destination(prefix, p).Ok?
    ensures Destination(prefix, p).value == Combined(prefix, p)
    ensures Paths.Canonical(Combined(prefix, p))
  {
    assert Paths.Stripped(Combined(prefix, p));
    Paths.StripStripped(Combined(prefix, p));
    Paths.ValidateExact(Combined(prefix, p));
  }

  /** What decides a destination: under a prefix the spaces in front of a path stay, without one they go too. */
  function Trimmed(prefix: string, p: string): string {
    if prefix == "" then Paths.Strip(p) else Paths.StripRight(p)
  }

  lemma DestinationTrimmed(prefix: string, p: string)
    requires prefix == "" || Paths.Canonical(prefix)
    requires Destination(prefix, p).Ok?
    ensures Destination(prefix, p).value == Combined(prefix, Trimmed(prefix, p))
  {
    Paths.ValidateExact(Combined(prefix, p));
    if prefix != "" {
      Paths.StripRightAfter(prefix, p);
      assert !Paths.IsSpace(Combined(prefix, p)[0]);
    }
  }

  /** Two usable paths, canonical or not, share a destination exactly if they agree once trimmed. */
  lemma DestinationsCollide(prefix: string, p: string, q: string)
    requires prefix == "" || Paths.Canonical(prefix)
    requires Destination(prefix, p).Ok? && Destination(prefix, q).Ok?
    ensures Destination(prefix, p) == Destination(prefix, q) <==> Trimmed(prefix, p) == Trimmed(prefix, q)
  {
    DestinationTrimmed(prefix, p);
    DestinationTrimmed(prefix, q);
    if prefix != "" {
      assert Combined(prefix, Trimmed(prefix, p))[|prefix| + 1..] == Trimmed(prefix, p);
      assert Combined(prefix, Trimmed(prefix, q))[|prefix| + 1..] == Trimmed(prefix, q);
    }
  }

  /** So an accepted selection keeps its files apart exactly if no two selected paths agree once trimmed. */
  lemma SelectionCollides(manifest: map<string, ByteString>, paths: seq<string>, prefix: string)
    requires prefix == "" || Paths.Canonical(prefix)
    requires Selectable(manifest, paths, prefix)
    ensures (forall i: nat, j: nat :: i < j < |paths| ==> Destination(prefix, paths[i]) != Destination(prefix, paths[j]))
       <==> forall i: nat, j: nat :: i < j < |paths| ==> Trimmed(prefix, paths[i]) != Trimmed(prefix, paths[j])
  {
    hide Destination, Paths.Canonical, Trimmed, Paths.Ancestors;
    forall i: nat, j: nat | i < j < |paths|
      ensures Destination(prefix, paths[i]) == Destination(prefix, paths[j]) <==> Trimmed(prefix, paths[i]) == Trimmed(prefix, paths[j])
    {
      assert paths[i] in paths && paths[j] in paths;
      DestinationsCollide(prefix, paths[i], paths[j]);
    }
  }

  lemma OneLetter()
    ensures Paths.Canonical("a") && Paths.Ancestors("a") == {}
  {
    Paths.SplitOne("a");
    assert "a"[1..] == "" && Paths.Utf8Length("a") == 1;
  }

  lemma SpaceIsStripped()
    ensures Paths.Strip("a ") == "a"
  {
    assert "a "[..1] == "a";
    assert Paths.StripRight("a") == "a";
  }

  /** Without canonical manifest paths two selected files can share one destination. */
  lemma CanonicalIsNeeded()
    ensures Selectable(map["a" := [], "a " := []], ["a", "a "], "")
    ensures Destination("", "a") == Destination("", "a ")
  {
    hide Paths.Canonical, Paths.Strip, Paths.Ancestors, Paths.Validate;
    OneLetter();
    SpaceIsStripped();
    Paths.ValidateExact("a");
    Paths.ValidateExact("a ");
    assert forall p <- ["a", "a "] :: Usable("", p) && Destination("", p) == Paths.Ok("a");
  }

  // ----- The observation -----

  ghost predicate Unobstructed(fs: FS, root: Ino, p: Path, m: nat) {
    m <= |p| && forall j: nat {:trigger p[..j]} :: 0 < j < m ==>
      Walk(fs, root, p[..j]).Some? && Passable(fs, Walk(fs, root, p[..j]).value, Device(fs, root))
  }

  /** Nothing is at `p`: some ancestor, or `p` itself, is missing and everything before it can be passed. */
  ghost predicate IsFree(fs: FS, root: Ino, p: Path) {
    exists m: nat {:trigger p[..m]} :: 0 < m <= |p| && Unobstructed(fs, root, p, m) && Walk(fs, root, p[..m]).None?
  }

  /** An ordinary file of one name, on the root's device, with exactly these bytes, is at `p`. */
  ghost predicate IsIdentical(fs: FS, root: Ino, p: Path, expected: ByteString) {
    && Unobstructed(fs, root, p, |p|)
    && Holds(fs, Walk(fs, root, p), expected) && |expected| <= MAX_FILE_BYTES
    && fs.nodes[Walk(fs, root, p).value].links == 1 && Device(fs, Walk(fs, root, p).value) == Device(fs, root)
  }

  /** Every recorded ancestor is as recorded. */
  ghost predicate Faithful(fs: FS, root: Ino, approved: map<Path, Ancestor>) {
    forall q :: q in approved ==>
      match approved[q]
      case Absent => Walk(fs, root, q).None?
      case Present(i) => Walk(fs, root, q) == Some(i) && Passable(fs, i, Device(fs, root))
      case Unusable => Walk(fs, root, q).Some? && !IsDir(fs, Walk(fs, root, q).value)
  }

  /** Every ancestor of `p` that is there has been recorded. */
  ghost predicate Recorded(fs: FS, root: Ino, approved: map<Path, Ancestor>, p: Path) {
    forall m: nat {:trigger p[..m]} :: 0 < m < |p| && Walk(fs, root, p[..m]).Some? ==> WasPresent(approved, p[..m])
  }

  ghost predicate Grown(before: map<Path, Ancestor>, after: map<Path, Ancestor>) {
    forall q :: WasPresent(before, q) ==> WasPresent(after, q) && after[q] == before[q]
  }

  /** Where the walk to a destination's parent ended. */
  datatype Reached = Parent(ino: Ino) | MissingAt | Blocked

  lemma {:induction false} MissingBelow(fs: FS, d: Ino, p: Path, j: nat, m: nat)
    requires j <= m <= |p| && Walk(fs, d, p[..j]).None?
    ensures Walk(fs, d, p[..m]).None?
  {
    if j < m {
      MissingBelow(fs, d, p, j, m - 1);
      assert p[..m] == p[..m - 1] + [p[m - 1]];
      WalkStep(fs, d, p[..m - 1], p[m - 1]);
    }
  }

  /** What `a` says of `q` is so. */
  ghost predicate True(fs: FS, root: Ino, q: Path, a: Ancestor) {
    match a
    case Absent => Walk(fs, root, q).None?
    case Present(i) => Walk(fs, root, q) == Some(i) && Passable(fs, i, Device(fs, root))
    case Unusable => Walk(fs, root, q).Some? && !IsDir(fs, Walk(fs, root, q).value)
  }

  lemma RecordOne(fs: FS, root: Ino, before: map<Path, Ancestor>, approved: map<Path, Ancestor>, q: Path, a: Ancestor)
    requires Faithful(fs, root, approved) && Grown(before, approved) && True(fs, root, q, a)
    ensures Faithful(fs, root, approved[q := a]) && Grown(before, approved[q := a])
    ensures forall r :: r != q && WasPresent(approved, r) ==> WasPresent(approved[q := a], r)
  {
    hide Walk;
  }

  /** The ancestor loop of `observe` for one destination. */
  method ObserveAncestors(fs: FS, root: Ino, p: Path, approved0: map<Path, Ancestor>) returns (reached: Reached, approved: map<Path, Ancestor>)
    requires Faithful(fs, root, approved0) && p != []
    ensures Faithful(fs, root, approved) && Grown(approved0, approved)
    ensures match reached
            case Parent(i) => Walk(fs, root, p[..|p| - 1]) == Some(i) && Unobstructed(fs, root, p, |p|) && Recorded(fs, root, approved, p)
            case MissingAt => IsFree(fs, root, p) && Walk(fs, root, p).None? && Recorded(fs, root, approved, p)
            case Blocked => !IsFree(fs, root, p) && !Unobstructed(fs, root, p, |p|)
  {
    hide Walk, Passable, Faithful, Grown, IsFree, OpenChildIn, Unobstructed, Recorded, WasPresent;
    approved := approved0;
    var current := root;
    var m := 0;
    AtTheStart(fs, root, p, approved);
    while m < |p| - 1
      invariant 0 <= m <= |p| - 1
      invariant Walk(fs, root, p[..m]) == Some(current) && Unobstructed(fs, root, p, m + 1)
      invariant Faithful(fs, root, approved) && Grown(approved0, approved) && RecordedTo(approved, p, m)
    {
      var here := p[..m + 1];
      assert here == p[..m] + [p[m]];
      WalkStep(fs, root, p[..m], p[m]);
      var (found, refused) := OpenChildIn(fs, current, p[m], Device(fs, root));
      FoundPassable(fs, current, p[m], Device(fs, root));
      if here in approved && approved[here] == Absent {
        RecordedAbsent(fs, root, approved, here);
        Below(fs, root, p, m + 1, approved);
        return MissingAt, approved;
      }
      if found.Err? {
        if found.errno == Missing {
          RecordOne(fs, root, approved0, approved, here, Absent);
          RecordedMore(approved, p, m, Absent);
          approved := approved[here := Absent];
          Below(fs, root, p, m + 1, approved);
          return MissingAt, approved;
        }
        BlockedAt(fs, root, p, m + 1);
        if !refused {
          RecordOne(fs, root, approved0, approved, here, Unusable);
          approved := approved[here := Unusable];
        }
        return Blocked, approved;
      }
      current := found.value;
      RecordOne(fs, root, approved0, approved, here, Present(current));
      RecordedMore(approved, p, m, Present(current));
      OneMorePassed(fs, root, p, m + 1);
      approved := approved[here := Present(current)];
      m := m + 1;
    }
    RecordedAll(fs, root, approved, p);
    reached := Parent(current);
  }

  /** The first `m` ancestors of `p` are recorded as present. */
  ghost predicate RecordedTo(approved: map<Path, Ancestor>, p: Path, m: nat) {
    m <= |p| && forall j: nat {:trigger p[..j]} :: 0 < j <= m ==> WasPresent(approved, p[..j])
  }

  lemma AtTheStart(fs: FS, root: Ino, p: Path, approved: map<Path, Ancestor>)
    requires p != []
    ensures Walk(fs, root, p[..0]) == Some(root) && Unobstructed(fs, root, p, 1) && RecordedTo(approved, p, 0) && Grown(approved, approved)
  {
  }

  lemma RecordedMore(approved: map<Path, Ancestor>, p: Path, m: nat, a: Ancestor)
    requires RecordedTo(approved, p, m) && m < |p|
    ensures RecordedTo(approved[p[..m + 1] := a], p, m)
    ensures a.Present? ==> RecordedTo(approved[p[..m + 1] := a], p, m + 1)
  {
  }

  lemma OneMorePassed(fs: FS, root: Ino, p: Path, m: nat)
    requires 0 < m < |p| && Unobstructed(fs, root, p, m)
    requires Walk(fs, root, p[..m]).Some? && Passable(fs, Walk(fs, root, p[..m]).value, Device(fs, root))
    ensures Unobstructed(fs, root, p, m + 1)
  {
    hide Walk, Passable;
  }

  lemma RecordedAll(fs: FS, root: Ino, approved: map<Path, Ancestor>, p: Path)
    requires p != [] && RecordedTo(approved, p, |p| - 1)
    ensures Recorded(fs, root, approved, p)
  {
    hide Walk;
  }

  lemma RecordedAbsent(fs: FS, root: Ino, approved: map<Path, Ancestor>, q: Path)
    requires Faithful(fs, root, approved) && q in approved && approved[q] == Absent
    ensures Walk(fs, root, q).None?
  {
  }

  lemma FoundPassable(fs: FS, d: Ino, n: Name, device: nat)
    ensures var (found, refused) := OpenChildIn(fs, d, n, device);
            && (found.Ok? <==> n in Entries(fs, d) && Passable(fs, Entries(fs, d)[n], device))
            && (found.Ok? ==> found.value == Entries(fs, d)[n])
            && (found.Err? && found.errno == Missing <==> n !in Entries(fs, d))
            && (found.Err? && found.errno != Missing && !refused ==> !IsDir(fs, Entries(fs, d)[n]))
  {
  }

  lemma Below(fs: FS, root: Ino, p: Path, m: nat, approved: map<Path, Ancestor>)
    requires 0 < m < |p| && Unobstructed(fs, root, p, m) && Walk(fs, root, p[..m]).None? && RecordedTo(approved, p, m - 1)
    ensures IsFree(fs, root, p) && Walk(fs, root, p).None? && Recorded(fs, root, approved, p)
  {
    hide Walk, Passable;
    forall j: nat {:trigger p[..j]} | m <= j <= |p|
      ensures Walk(fs, root, p[..j]).None?
    {
      MissingBelow(fs, root, p, m, j);
    }
    assert p[..|p|] == p;
  }

  lemma BlockedAt(fs: FS, root: Ino, p: Path, m: nat)
    requires 0 < m < |p| && Unobstructed(fs, root, p, m)
    requires Walk(fs, root, p[..m]).Some? && !Passable(fs, Walk(fs, root, p[..m]).value, Device(fs, root))
    ensures !IsFree(fs, root, p) && !Unobstructed(fs, root, p, |p|)
  {
    hide Walk, Passable;
    forall j: nat {:trigger p[..j]} | 0 < j <= |p| && Unobstructed(fs, root, p, j)
      ensures Walk(fs, root, p[..j]).Some?
    {
      assert p[..m] == p[..m];
    }
  }

  /** `_observe_destination` */
  function ClassAt(fs: FS, parent: Ino, n: Name, expected: ByteString, device: nat): Class {
    var found := Open(fs, parent, n);
    if found.Err? then (if found.errno == Missing then Create else Conflict)
    else match fs.nodes[found.value]
      case File(d, data, links) =>
        if links == 1 && d == device && |data| <= MAX_FILE_BYTES && data == expected then Identical else Conflict
      case _ => Conflict
  }

  lemma ClassAtMeans(fs: FS, root: Ino, p: Path, expected: ByteString, parent: Ino)
    requires p != [] && Walk(fs, root, p[..|p| - 1]) == Some(parent) && Unobstructed(fs, root, p, |p|)
    ensures var c := ClassAt(fs, parent, Base(p), expected, Device(fs, root));
            && (c == Create <==> Walk(fs, root, p).None?) && (c == Create <==> IsFree(fs, root, p))
            && (c == Identical <==> IsIdentical(fs, root, p, expected))
  {
    FoundAt(fs, root, p, expected, parent);
    hide Walk, Passable, ClassAt;
    assert p[..|p|] == p;
    if Walk(fs, root, p).Some? {
      forall m: nat {:trigger p[..m]} | 0 < m <= |p|
        ensures Walk(fs, root, p[..m]).Some?
      {
      }
    }
  }

  lemma ClassAtEntry(fs: FS, parent: Ino, n: Name, expected: ByteString, device: nat)
    ensures var c := ClassAt(fs, parent, n, expected, device);
            && (c == Create <==> n !in Entries(fs, parent))
            && (c == Identical <==> n in Entries(fs, parent) && Holds(fs, Some(Entries(fs, parent)[n]), expected) && |expected| <= MAX_FILE_BYTES
                                    && fs.nodes[Entries(fs, parent)[n]].links == 1 && Device(fs, Entries(fs, parent)[n]) == device)
  {
  }

  lemma FoundAt(fs: FS, root: Ino, p: Path, expected: ByteString, parent: Ino)
    requires p != [] && Walk(fs, root, p[..|p| - 1]) == Some(parent)
    ensures var c, w := ClassAt(fs, parent, Base(p), expected, Device(fs, root)), Walk(fs, root, p);
            && (c == Create <==> w.None?)
            && (c == Identical <==> Holds(fs, w, expected) && |expected| <= MAX_FILE_BYTES
                                    && fs.nodes[w.value].links == 1 && Device(fs, w.value) == Device(fs, root))
  {
    assert p == p[..|p| - 1] + [Base(p)];
    WalkStep(fs, root, p[..|p| - 1], Base(p));
    hide Walk, ClassAt, Open, Base;
    assert Walk(fs, root, p) == if Base(p) in Entries(fs, parent) then Some(Entries(fs, parent)[Base(p)]) else None;
    ClassAtEntry(fs, parent, Base(p), expected, Device(fs, root));
  }

  /** `observe`: classifies every destination, writing nothing, and records every ancestor it passed. */
  method Observe(fs: FS, root: Ino, destinations: seq<Path>, expected: seq<ByteString>)
    returns (approved: map<Path, Ancestor>, kinds: seq<Class>)
    requires |destinations| == |expected| && forall p <- destinations :: p != []
    ensures |kinds| == |destinations| && Faithful(fs, root, approved)
    ensures forall k: nat :: k < |kinds| ==>
              && (kinds[k] == Create <==> IsFree(fs, root, destinations[k]))
              && (kinds[k] == Identical <==> IsIdentical(fs, root, destinations[k], expected[k]))
              && (kinds[k] != Conflict ==> PlannedFile(fs, root, approved, destinations[k], kinds[k], expected[k]))
  {
    hide Walk, IsFree, IsIdentical, PlannedFile, ClassAt, Passable, PlannedAncestor, Unobstructed, Faithful, Recorded, Grown;
    approved, kinds := map[], [];
    NothingRecorded(fs, root);
    while |kinds| < |destinations|
      invariant |kinds| <= |destinations| && Faithful(fs, root, approved)
      invariant forall k: nat :: k < |kinds| ==> Observed(fs, root, approved, destinations[k], kinds[k], expected[k])
    {
      var k := |kinds|;
      var p := destinations[k];
      assert p in destinations;
      ghost var before := approved;
      var reached;
      reached, approved := ObserveAncestors(fs, root, p, approved);
      var kind := match reached
        case Parent(i) => ClassAt(fs, i, Base(p), expected[k], Device(fs, root))
        case MissingAt => Create
        case Blocked => Conflict;
      NowObserved(fs, root, p, expected[k], approved, reached, kind);
      forall j: nat | j < k
        ensures Observed(fs, root, approved, destinations[j], kinds[j], expected[j])
      {
        StillObserved(fs, root, before, approved, destinations[j], kinds[j], expected[j]);
      }
      kinds := kinds + [kind];
    }
  }

  ghost predicate Observed(fs: FS, root: Ino, approved: map<Path, Ancestor>, p: Path, kind: Class, expected: ByteString) {
    && (kind == Create <==> IsFree(fs, root, p)) && (kind == Identical <==> IsIdentical(fs, root, p, expected))
    && (kind != Conflict ==> PlannedFile(fs, root, approved, p, kind, expected))
  }

  lemma NothingRecorded(fs: FS, root: Ino)
    ensures Faithful(fs, root, map[])
  {
  }

  lemma PlannedFromRecord(fs: FS, root: Ino, approved: map<Path, Ancestor>, p: Path)
    requires Faithful(fs, root, approved) && Recorded(fs, root, approved, p)
    ensures forall m: nat {:trigger p[..m]} :: 0 < m < |p| ==> PlannedAncestor(fs, root, approved, p[..m])
  {
    hide Walk, Passable;
  }

  lemma NowObserved(fs: FS, root: Ino, p: Path, expected: ByteString, approved: map<Path, Ancestor>, reached: Reached, kind: Class)
    requires p != [] && Faithful(fs, root, approved)
    requires match reached
            case Parent(i) => Walk(fs, root, p[..|p| - 1]) == Some(i) && Unobstructed(fs, root, p, |p|) && Recorded(fs, root, approved, p)
            case MissingAt => IsFree(fs, root, p) && Walk(fs, root, p).None? && Recorded(fs, root, approved, p)
            case Blocked => !IsFree(fs, root, p) && !Unobstructed(fs, root, p, |p|)
    requires kind == match reached
        case Parent(i) => ClassAt(fs, i, Base(p), expected, Device(fs, root))
        case MissingAt => Create
        case Blocked => Conflict
    ensures Observed(fs, root, approved, p, kind, expected)
  {
    hide Walk, Passable, ClassAt, IsFree, PlannedAncestor, Faithful;
    match reached
    case Parent(i) =>
      ClassAtMeans(fs, root, p, expected, i);
      PlannedFromRecord(fs, root, approved, p);
    case MissingAt =>
      PlannedFromRecord(fs, root, approved, p);
    case Blocked =>
  }

  lemma StillObserved(fs: FS, root: Ino, before: map<Path, Ancestor>, after: map<Path, Ancestor>, p: Path, kind: Class, expected: ByteString)
    requires Observed(fs, root, before, p, kind, expected) && Grown(before, after) && Faithful(fs, root, after)
    ensures Observed(fs, root, after, p, kind, expected)
  {
    hide Walk, Passable, IsFree, IsIdentical;
    if kind != Conflict {
      forall m: nat {:trigger p[..m]} | 0 < m < |p|
        ensures PlannedAncestor(fs, root, after, p[..m])
      {
        assert PlannedAncestor(fs, root, before, p[..m]);
      }
    }
  }
}
