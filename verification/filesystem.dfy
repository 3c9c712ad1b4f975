/** A file system as inodes and directory entries. Inode numbers are never used twice. */
module Filesystem {
  import opened Bytes
  import opened Wrappers

  type Ino = nat
  type Name = string
  type Path = seq<Name>

  datatype Node =
    | Dir(device: nat, entries: map<Name, Ino>)
    | File(device: nat, data: ByteString, links: nat)
    | Link(device: nat)
    | Special(device: nat)

  /** `next` is the first inode number never handed out. */
  datatype FS = FS(nodes: map<Ino, Node>, next: Ino)

  /** Why a call failed, as far as the callers tell causes apart. */
  datatype Errno = Exists | Missing | Unsupported | Other
  datatype Result<+T> = Ok(value: T) | Err(errno: Errno)

  function Entries(fs: FS, d: Ino): map<Name, Ino> {
    if d in fs.nodes && fs.nodes[d].Dir? then fs.nodes[d].entries else map[]
  }

  predicate IsDir(fs: FS, i: Ino) {
    i in fs.nodes && fs.nodes[i].Dir?
  }

  /** Directory `d` has the name `n` for inode `i`. */
  predicate Bound(fs: FS, d: Ino, n: Name, i: Ino) {
    n in Entries(fs, d) && Entries(fs, d)[n] == i
  }

  /** Only inode numbers already handed out exist or are named. */
  ghost predicate WellFormed(fs: FS) {
    && (forall i: Ino :: i in fs.nodes ==> i < fs.next)
    && (forall d: Ino, n: Name, i: Ino :: Bound(fs, d, n, i) ==> i < fs.next)
  }

  /** A directory has at most one name, and is no entry of itself. */
  ghost predicate DirectoriesOnce(fs: FS) {
    && (forall d: Ino, n: Name, e: Ino, m: Name, i: Ino :: Bound(fs, d, n, i) && Bound(fs, e, m, i) && IsDir(fs, i) ==> d == e && n == m)
    && forall d: Ino, n: Name :: !Bound(fs, d, n, d)
  }

  // ----- How the set of names changes -----

  ghost predicate Adds(before: FS, after: FS, d: Ino, n: Name, i: Ino) {
    forall e: Ino, m: Name, j: Ino :: Bound(after, e, m, j) <==> Bound(before, e, m, j) || (e == d && m == n && j == i)
  }

  ghost predicate Drops(before: FS, after: FS, d: Ino, n: Name) {
    forall e: Ino, m: Name, j: Ino :: Bound(after, e, m, j) <==> Bound(before, e, m, j) && !(e == d && m == n)
  }

  /** Inode `i` is as it was, except that a directory may have other entries. */
  predicate SameInode(before: FS, after: FS, i: Ino) {
    && i in before.nodes && i in after.nodes
    && (before.nodes[i] == after.nodes[i]
        || (before.nodes[i].Dir? && after.nodes[i].Dir? && before.nodes[i].device == after.nodes[i].device))
  }

  ghost predicate SameInodesBut(before: FS, after: FS, changed: set<Ino>) {
    forall i :: i in before.nodes && i !in changed ==> SameInode(before, after, i)
  }

  // ----- Calls that change the file system -----

  /** `fs` with the new inode `i` and the new entry `n` for it in `d`. */
  function Bind(fs: FS, d: Ino, n: Name, i: Ino): FS
    requires IsDir(fs, d)
  {
    fs.(nodes := fs.nodes[d := Dir(fs.nodes[d].device, fs.nodes[d].entries[n := i])])
  }

  function Unbind(fs: FS, d: Ino, n: Name): FS
    requires IsDir(fs, d)
  {
    fs.(nodes := fs.nodes[d := Dir(fs.nodes[d].device, fs.nodes[d].entries - {n})])
  }

  function AddNode(fs: FS, d: Ino, n: Name, node: Node): FS
    requires IsDir(fs, d) && d < fs.next
  {
    Bind(FS(fs.nodes[fs.next := node], fs.next + 1), d, n, fs.next)
  }

  function Device(fs: FS, i: Ino): nat {
    if i in fs.nodes then fs.nodes[i].device else 0
  }

  function Mkdir(fs: FS, d: Ino, n: Name): Result<FS> {
    if !IsDir(fs, d) || d >= fs.next then Err(Missing)
    else if n in Entries(fs, d) then Err(Exists)
    else Ok(AddNode(fs, d, n, Dir(Device(fs, d), map[])))
  }

  /** Exclusive creation of an empty ordinary file. */
  function CreateFile(fs: FS, d: Ino, n: Name): Result<FS> {
    if !IsDir(fs, d) || d >= fs.next then Err(Missing)
    else if n in Entries(fs, d) then Err(Exists)
    else Ok(AddNode(fs, d, n, File(Device(fs, d), [], 1)))
  }

  function WriteFile(fs: FS, i: Ino, data: ByteString): Result<FS> {
    if i in fs.nodes && fs.nodes[i].File?
    then Ok(fs.(nodes := fs.nodes[i := fs.nodes[i].(data := data)]))
    else Err(Other)
  }

  /** `renameat2(RENAME_NOREPLACE)`: check and move are one step, and an existing destination wins. */
  function RenameNoReplace(fs: FS, from: Ino, old_: Name, to: Ino, new_: Name): Result<FS> {
    if !IsDir(fs, from) || !IsDir(fs, to) || old_ !in Entries(fs, from) then Err(Missing)
    else if new_ in Entries(fs, to) then Err(Exists)
    else if Device(fs, from) != Device(fs, to) then Err(Other)
    else
      var i := Entries(fs, from)[old_];
      Ok(Unbind(Bind(fs, to, new_, i), from, old_))
  }

  /** Removes a name; the inode goes with its last one. */
  function Unlink(fs: FS, d: Ino, n: Name): Result<FS> {
    if n !in Entries(fs, d) then Err(Missing)
    else
      var i := Entries(fs, d)[n];
      if i !in fs.nodes || IsDir(fs, i) then Err(Other)
      else
        var rest := Unbind(fs, d, n);
        if fs.nodes[i].File? && fs.nodes[i].links > 1
        then Ok(rest.(nodes := rest.nodes[i := fs.nodes[i].(links := fs.nodes[i].links - 1)]))
        else Ok(rest.(nodes := rest.nodes - {i}))
  }

  function Rmdir(fs: FS, d: Ino, n: Name): Result<FS> {
    if n !in Entries(fs, d) then Err(Missing)
    else
      var i := Entries(fs, d)[n];
      if i == d || !IsDir(fs, i) || Entries(fs, i) != map[] then Err(Other)
      else
        var rest := Unbind(fs, d, n);
        Ok(rest.(nodes := rest.nodes - {i}))
  }

  // ----- What those calls do to names and inodes -----

  lemma BindNames(fs: FS, d: Ino, n: Name, i: Ino)
    requires IsDir(fs, d) && n !in Entries(fs, d)
    ensures var after := Bind(fs, d, n, i);
            Adds(fs, after, d, n, i) && SameInodesBut(fs, after, {}) && after.nodes.Keys == fs.nodes.Keys
  {
    var after := Bind(fs, d, n, i);
    assert forall e: Ino :: Entries(after, e) == if e == d then Entries(fs, d)[n := i] else Entries(fs, e);
  }

  lemma UnbindNames(fs: FS, d: Ino, n: Name)
    requires IsDir(fs, d)
    ensures var after := Unbind(fs, d, n);
            Drops(fs, after, d, n) && SameInodesBut(fs, after, {}) && after.nodes.Keys == fs.nodes.Keys
  {
    var after := Unbind(fs, d, n);
    assert forall e: Ino :: Entries(after, e) == if e == d then Entries(fs, d) - {n} else Entries(fs, e);
  }

  lemma AddNodeNames(fs: FS, d: Ino, n: Name, node: Node)
    requires WellFormed(fs) && IsDir(fs, d) && n !in Entries(fs, d)
    requires node.Dir? ==> node.entries == map[]
    ensures var after := AddNode(fs, d, n, node);
            && WellFormed(after) && after.next == fs.next + 1
            && Adds(fs, after, d, n, fs.next) && SameInodesBut(fs, after, {})
            && after.nodes.Keys == fs.nodes.Keys + {fs.next} && after.nodes[fs.next] == node
            && (forall m: Name, j: Ino :: !Bound(after, fs.next, m, j))
            && (forall i :: i in fs.nodes && !fs.nodes[i].Dir? ==> after.nodes[i] == fs.nodes[i])
  {
    var mid := FS(fs.nodes[fs.next := node], fs.next + 1);
    assert forall e: Ino :: Entries(mid, e) == Entries(fs, e);
    assert forall e: Ino, m: Name, j: Ino :: Bound(mid, e, m, j) <==> Bound(fs, e, m, j);
    BindNames(mid, d, n, fs.next);
  }

  lemma WriteNames(fs: FS, i: Ino, data: ByteString)
    requires WellFormed(fs) && WriteFile(fs, i, data).Ok?
    ensures var after := WriteFile(fs, i, data).value;
            && WellFormed(after) && after.next == fs.next
            && (forall e: Ino, m: Name, j: Ino :: Bound(after, e, m, j) <==> Bound(fs, e, m, j))
            && SameInodesBut(fs, after, {i})
            && (forall j :: j in fs.nodes && j != i ==> after.nodes[j] == fs.nodes[j])
            && i in after.nodes && after.nodes[i] == fs.nodes[i].(data := data)
  {
    var after := WriteFile(fs, i, data).value;
    assert forall e: Ino :: Entries(after, e) == Entries(fs, e);
    assert forall e: Ino, m: Name, j: Ino :: Bound(after, e, m, j) <==> Bound(fs, e, m, j);
  }

  /** A rename adds the new name and drops the old one; no inode is touched. */
  lemma RenameNames(fs: FS, from: Ino, old_: Name, to: Ino, new_: Name)
    requires WellFormed(fs) && RenameNoReplace(fs, from, old_, to, new_).Ok?
    ensures var after, i := RenameNoReplace(fs, from, old_, to, new_).value, Entries(fs, from)[old_];
            && WellFormed(after) && after.next == fs.next
            && (forall e: Ino, m: Name, j: Ino :: Bound(after, e, m, j) <==>
                  (Bound(fs, e, m, j) || (e == to && m == new_ && j == i)) && !(e == from && m == old_))
            && SameInodesBut(fs, after, {}) && after.nodes.Keys == fs.nodes.Keys
  {
    var mid := Bind(fs, to, new_, Entries(fs, from)[old_]);
    BindNames(fs, to, new_, Entries(fs, from)[old_]);
    UnbindNames(mid, from, old_);
    assert Bound(fs, from, old_, Entries(fs, from)[old_]);
  }

  /** A name leads to a file after a call exactly if it did before, for calls that only change directories. */
  lemma RenameFiles(fs: FS, from: Ino, old_: Name, to: Ino, new_: Name, i: Ino)
    requires RenameNoReplace(fs, from, old_, to, new_).Ok? && i in fs.nodes && !fs.nodes[i].Dir?
    ensures var after := RenameNoReplace(fs, from, old_, to, new_).value;
            i in after.nodes && after.nodes[i] == fs.nodes[i]
  {
  }

  lemma UnlinkNames(fs: FS, d: Ino, n: Name)
    requires WellFormed(fs) && Unlink(fs, d, n).Ok?
    ensures var after := Unlink(fs, d, n).value;
            && WellFormed(after) && after.next == fs.next
            && Drops(fs, after, d, n) && SameInodesBut(fs, after, {Entries(fs, d)[n]})
            && after.nodes.Keys <= fs.nodes.Keys
            && (forall j :: j in after.nodes && j != Entries(fs, d)[n] && !fs.nodes[j].Dir? ==> after.nodes[j] == fs.nodes[j])
  {
    var i, rest, after := Entries(fs, d)[n], Unbind(fs, d, n), Unlink(fs, d, n).value;
    UnbindNames(fs, d, n);
    assert forall e: Ino :: Entries(after, e) == Entries(rest, e);
    assert forall e: Ino, m: Name, j: Ino :: Bound(after, e, m, j) <==> Bound(rest, e, m, j);
  }

  /** A directory whose entries can all be unlinked: each leads to an inode of its own, which is there and is no directory. */
  ghost predicate Clearable(fs: FS, d: Ino) {
    && IsDir(fs, d)
    && (forall n: Name, i: Ino :: Bound(fs, d, n, i) ==> i in fs.nodes && !IsDir(fs, i))
    && forall n: Name, m: Name, i: Ino :: Bound(fs, d, n, i) && Bound(fs, d, m, i) ==> n == m
  }

  /** Directory `d` has lost all names but `left`, and no other directory has changed. */
  ghost predicate OnlyLeft(before: FS, after: FS, d: Ino, left: set<Name>) {
    && (forall n: Name :: n in Entries(after, d) <==> n in left && n in Entries(before, d))
    && forall e: Ino :: e != d ==> Entries(after, e) == Entries(before, e)
  }

  lemma UnlinkClears(fs: FS, d: Ino, n: Name)
    requires Clearable(fs, d) && n in Entries(fs, d)
    ensures Unlink(fs, d, n).Ok?
    ensures var after := Unlink(fs, d, n).value;
            Clearable(after, d) && Entries(after, d) == Entries(fs, d) - {n} && forall e: Ino :: e != d ==> Entries(after, e) == Entries(fs, e)
  {
    assert Bound(fs, d, n, Entries(fs, d)[n]);
    var after, i := Unlink(fs, d, n).value, Entries(fs, d)[n];
    assert Entries(after, d) == Entries(fs, d) - {n};
    forall m: Name, j: Ino | Bound(after, d, m, j)
      ensures j in after.nodes && !IsDir(after, j)
    {
      assert Bound(fs, d, m, j);
    }
    forall m: Name, k: Name, j: Ino | Bound(after, d, m, j) && Bound(after, d, k, j)
      ensures m == k
    {
      assert Bound(fs, d, m, j) && Bound(fs, d, k, j);
    }
  }

  /** An empty directory is removed by its name, and nothing else changes. */
  lemma RmdirOnly(fs: FS, root: Ino, n: Name, d: Ino)
    requires Bound(fs, root, n, d) && d != root && IsDir(fs, d) && Entries(fs, d) == map[]
    ensures Rmdir(fs, root, n).Ok?
    ensures var after := Rmdir(fs, root, n).value;
            Entries(after, root) == Entries(fs, root) - {n} && forall e: Ino :: e != root ==> Entries(after, e) == Entries(fs, e)
  {
  }

  lemma RmdirNames(fs: FS, d: Ino, n: Name)
    requires WellFormed(fs) && Rmdir(fs, d, n).Ok?
    ensures var after := Rmdir(fs, d, n).value;
            && WellFormed(after) && after.next == fs.next
            && Drops(fs, after, d, n) && SameInodesBut(fs, after, {Entries(fs, d)[n]})
            && after.nodes.Keys <= fs.nodes.Keys
            && (forall j :: j in after.nodes && !fs.nodes[j].Dir? ==> after.nodes[j] == fs.nodes[j])
  {
    var rest, after := Unbind(fs, d, n), Rmdir(fs, d, n).value;
    UnbindNames(fs, d, n);
    assert forall e: Ino :: Entries(after, e) == Entries(rest, e);
    assert forall e: Ino, m: Name, j: Ino :: Bound(after, e, m, j) <==> Bound(rest, e, m, j);
  }

  lemma RmdirFiles(fs: FS, d: Ino, n: Name, i: Ino)
    requires Rmdir(fs, d, n).Ok? && i in fs.nodes && !fs.nodes[i].Dir?
    ensures i in Rmdir(fs, d, n).value.nodes && Rmdir(fs, d, n).value.nodes[i] == fs.nodes[i]
  {
  }

  // ----- Calls that only look -----

  /** Opening one directory component without following links. */
  function OpenDir(fs: FS, d: Ino, n: Name): Result<Ino> {
    if n !in Entries(fs, d) then Err(Missing)
    else if IsDir(fs, Entries(fs, d)[n]) then Ok(Entries(fs, d)[n])
    else Err(Other)
  }

  /** Opening one entry for reading without following links. */
  function Open(fs: FS, d: Ino, n: Name): Result<Ino> {
    if n !in Entries(fs, d) then Err(Missing)
    else
      var i := Entries(fs, d)[n];
      if i in fs.nodes && !fs.nodes[i].Link? then Ok(i) else Err(Other)
  }

  // ----- Paths -----

  /** The inode a path leads to from `d`, following directory entries only. */
  function Walk(fs: FS, d: Ino, p: Path): Option<Ino>
    decreases |p|
  {
    if p == [] then Some(d)
    else if p[0] in Entries(fs, d) then Walk(fs, Entries(fs, d)[p[0]], p[1..])
    else None
  }

  /** What a path shows to somebody who looks. */
  datatype View = Nothing | Directory | Contents(data: ByteString) | Something

  function Look(fs: FS, i: Option<Ino>): View {
    if i.None? || i.value !in fs.nodes then Nothing
    else match fs.nodes[i.value]
      case Dir(_, _) => Directory
      case File(_, data, _) => Contents(data)
      case _ => Something
  }

  function ViewAt(fs: FS, root: Ino, p: Path): View {
    Look(fs, Walk(fs, root, p))
  }

  /** No directory is reached by two paths. */
  ghost predicate Tree(fs: FS, root: Ino) {
    forall p, q ::
      (Walk(fs, root, p).Some? && Walk(fs, root, p) == Walk(fs, root, q) && IsDir(fs, Walk(fs, root, p).value))
      ==> p == q
  }

  lemma {:induction false} WalkStep(fs: FS, d: Ino, p: Path, n: Name)
    ensures Walk(fs, d, p + [n]) ==
            var i := Walk(fs, d, p);
            if i.Some? && n in Entries(fs, i.value) then Some(Entries(fs, i.value)[n]) else None
    decreases |p|
  {
    if p == [] {
      assert [] + [n] == [n] && [n][1..] == [];
    } else {
      assert (p + [n])[1..] == p[1..] + [n];
      if p[0] in Entries(fs, d) {
        WalkStep(fs, Entries(fs, d)[p[0]], p[1..], n);
      }
    }
  }
}
