/** What a pass that only looks has seen: the states of the checkout at its calls, and where its descents stood. */
module ExportTrail {
  import opened Filesystem
  import opened ExportJournal
  import opened ExportSafety
  import opened ExportCourse
  import opened Wrappers

  /** The states of the checkout from `first` to `last`, each one turn of others after the one before. */
  ghost predicate Trail(states: seq<FS>, first: FS, last: FS, ours: Option<Ino>, mine: set<Ino>) {
    && states != [] && states[0] == first && states[|states| - 1] == last
    && forall i: nat :: i + 1 < |states| ==> OthersMay(states[i], states[i + 1], ours, mine)
  }

  lemma TrailStarts(fs: FS, ours: Option<Ino>, mine: set<Ino>)
    ensures Trail([fs], fs, fs, ours, mine)
  {
  }

  lemma TrailNext(states: seq<FS>, first: FS, last: FS, next: FS, ours: Option<Ino>, mine: set<Ino>)
    requires Trail(states, first, last, ours, mine) && OthersMay(last, next, ours, mine)
    ensures Trail(states + [next], first, next, ours, mine)
  {
    hide OthersMay;
  }

  /** A trail that goes on from where another ended. */
  lemma TrailOn(a: seq<FS>, b: seq<FS>, first: FS, middle: FS, last: FS, ours: Option<Ino>, mine: set<Ino>)
    requires Trail(a, first, middle, ours, mine) && Trail(b, middle, last, ours, mine)
    ensures b != [] && Trail(a + b[1..], first, last, ours, mine)
  {
    hide OthersMay;
    var all := a + b[1..];
    forall i: nat | i + 1 < |all|
      ensures OthersMay(all[i], all[i + 1], ours, mine)
    {
      if i + 1 < |a| {
        assert all[i] == a[i] && all[i + 1] == a[i + 1];
      } else {
        assert all[i] == b[i + 1 - |a|] && all[i + 1] == b[i + 2 - |a|];
      }
    }
  }

  /** `d` was reached from `root` along `p`, one component after the other, each where it led at some moment. */
  ghost predicate Opened(states: seq<FS>, root: Ino, p: Path, d: Ino)
    decreases |p|
  {
    if p == [] then d == root
    else exists fs: FS, e: Ino :: fs in states && Opened(states, root, ParentOf(p), e) && Bound(fs, e, Base(p), d)
  }

  /** Some component of `p` was looked for, where the descent stood, and was not there. */
  ghost predicate SeenMissing(states: seq<FS>, root: Ino, p: Path) {
    exists m: nat, d: Ino, fs: FS :: m < |p| && fs in states && Opened(states, root, p[..m], d) && p[m] !in Entries(fs, d)
  }

  lemma {:induction false} OpenedLonger(a: seq<FS>, b: seq<FS>, root: Ino, p: Path, d: Ino)
    requires Opened(a, root, p, d) && forall fs <- a :: fs in b
    ensures Opened(b, root, p, d)
    decreases |p|
  {
    if p != [] {
      var fs: FS, e: Ino :| fs in a && Opened(a, root, ParentOf(p), e) && Bound(fs, e, Base(p), d);
      OpenedLonger(a, b, root, ParentOf(p), e);
    }
  }

  lemma MissingLonger(a: seq<FS>, b: seq<FS>, root: Ino, p: Path)
    requires SeenMissing(a, root, p) && forall fs <- a :: fs in b
    ensures SeenMissing(b, root, p)
  {
    var m: nat, d: Ino, fs: FS :| m < |p| && fs in a && Opened(a, root, p[..m], d) && p[m] !in Entries(fs, d);
    OpenedLonger(a, b, root, p[..m], d);
  }

  lemma OpenedNext(states: seq<FS>, root: Ino, p: Path, m: nat, d: Ino, fs: FS, next: Ino)
    requires m < |p| && fs in states && Opened(states, root, p[..m], d) && Bound(fs, d, p[m], next)
    ensures Opened(states, root, p[..m + 1], next)
  {
    assert ParentOf(p[..m + 1]) == p[..m] && Base(p[..m + 1]) == p[m];
  }
}
