/** The broker's credential redactor: one-shot scrubbing and its streaming form. */
module Redaction {
  import opened Bytes

  const REPLACEMENT: ByteString := Ascii("[REDACTED]")
  const USER_PREFIX: ByteString := Ascii("x-access-token:")

  predicate OccursAt(secret: ByteString, s: ByteString, i: nat) {
    i + |secret| <= |s| && s[i..i + |secret|] == secret
  }

  /** The two spellings of one credential, in the order the pattern tries them, and what replaces them. */
  datatype Redactor = Redactor(longer: ByteString, shorter: ByteString, mark: ByteString) {
    ghost predicate Valid() {
      0 < |shorter| < |longer|
    }

    function Overlap(): nat
      requires Valid()
    {
      |longer| - 1
    }

    /** Length of the match at position `i`, longest alternative first; 0 for none. */
    function MatchAt(s: ByteString, i: nat): (n: nat)
      ensures i <= |s| ==> i + n <= |s|
    {
      if OccursAt(longer, s, i) then |longer| else if OccursAt(shorter, s, i) then |shorter| else 0
    }

    /** Every leftmost match from position `i` on replaced, left to right. */
    function ScrubFrom(s: ByteString, i: nat): ByteString
      requires Valid() && i <= |s|
      decreases |s| - i
    {
      if i == |s| then []
      else if MatchAt(s, i) > 0 then mark + ScrubFrom(s, i + MatchAt(s, i))
      else [s[i]] + ScrubFrom(s, i + 1)
    }

    /** `scrub_bytes` */
    function Scrub(s: ByteString): ByteString
      requires Valid()
    {
      ScrubFrom(s, 0)
    }
  }

  function ForToken(token: ByteString): (r: Redactor)
    requires token != []
    ensures r.Valid()
    ensures r.shorter == token && r.longer == Base64(USER_PREFIX + token) && r.mark == REPLACEMENT
  {
    Redactor(Base64(USER_PREFIX + token), token, REPLACEMENT)
  }

  /** The longer secret is the base64 of the user's name and the token, as it stands in an authorization header. */
  lemma LongerReads(token: ByteString)
    requires token != []
    ensures FromBase64(ForToken(token).longer) == Ascii("x-access-token:") + token
  {
    Base64Reads(USER_PREFIX + token);
  }

  // ----- What one-shot scrubbing means -----

  lemma {:induction false} ScrubSkips(r: Redactor, s: ByteString, i: nat, j: nat)
    requires r.Valid() && i <= j <= |s|
    requires forall k :: i <= k < j ==> r.MatchAt(s, k) == 0
    ensures r.ScrubFrom(s, i) == s[i..j] + r.ScrubFrom(s, j)
    decreases j - i
  {
    if i < j {
      ScrubSkips(r, s, i + 1, j);
      Prepend([s[i]], r.ScrubFrom(s, i + 1), s[i + 1..j], r.ScrubFrom(s, j));
      assert s[i..j] == [s[i]] + s[i + 1..j];
    } else {
      assert s[i..j] == [];
    }
  }

  /** `b` is the rest of `c` from position `k` on. */
  ghost predicate IsRest(b: ByteString, c: ByteString, k: nat) {
    k + |b| == |c| && forall i :: 0 <= i < |b| ==> b[i] == c[k + i]
  }

  lemma OccursShift(secret: ByteString, b: ByteString, c: ByteString, k: nat, i: nat)
    requires IsRest(b, c, k)
    ensures OccursAt(secret, c, k + i) == OccursAt(secret, b, i)
  {
    if i + |secret| <= |b| {
      assert c[k + i..k + i + |secret|] == b[i..i + |secret|];
    }
  }

  /** Scrubbing `c` from `k + i` on only depends on the rest of `c` from `k` on. */
  lemma {:induction false} ScrubShift(r: Redactor, b: ByteString, c: ByteString, k: nat, i: nat)
    requires r.Valid() && IsRest(b, c, k) && i <= |b|
    ensures r.ScrubFrom(c, k + i) == r.ScrubFrom(b, i)
    decreases |b| - i
  {
    hide OccursAt;
    if i < |b| {
      OccursShift(r.longer, b, c, k, i);
      OccursShift(r.shorter, b, c, k, i);
      if r.MatchAt(b, i) > 0 {
        ScrubShift(r, b, c, k, i + r.MatchAt(b, i));
      } else {
        ScrubShift(r, b, c, k, i + 1);
      }
    }
  }

  /** What follows position `i` begins with the secret. */
  ghost predicate StandsAt(secret: ByteString, s: ByteString, i: nat) {
    i <= |s| && secret <= s[i..]
  }

  lemma OccursExact(secret: ByteString, s: ByteString, i: nat)
    ensures OccursAt(secret, s, i) <==> StandsAt(secret, s, i)
  {
    if i + |secret| <= |s| {
      assert s[i..][..|secret|] == s[i..i + |secret|];
    }
  }

  lemma MatchIs(r: Redactor, s: ByteString, i: nat)
    ensures r.MatchAt(s, i) == if StandsAt(r.longer, s, i) then |r.longer| else if StandsAt(r.shorter, s, i) then |r.shorter| else 0
  {
    OccursExact(r.longer, s, i);
    OccursExact(r.shorter, s, i);
  }

  lemma ScrubsFirst(r: Redactor, s: ByteString, i: nat)
    requires r.Valid() && i < |s| && r.MatchAt(s, i) > 0 && forall j: nat :: j < i ==> r.MatchAt(s, j) == 0
    ensures r.Scrub(s) == s[..i] + (r.mark + r.Scrub(s[i + r.MatchAt(s, i)..]))
  {
    hide Redactor.MatchAt;
    ScrubSkips(r, s, 0, i);
    var n := r.MatchAt(s, i);
    ScrubShift(r, s[i + n..], s, i + n, 0);
    assert s[0..i] == s[..i];
  }

  /** Leftmost-longest: text before the first secret is kept, the longest secret starting there is replaced, and scrubbing resumes right after it. */
  lemma ScrubLeftmost(r: Redactor, s: ByteString, i: nat)
    requires r.Valid() && i < |s|
    requires forall j: nat :: j < i ==> !StandsAt(r.longer, s, j) && !StandsAt(r.shorter, s, j)
    requires StandsAt(r.longer, s, i) || StandsAt(r.shorter, s, i)
    ensures var n := if StandsAt(r.longer, s, i) then |r.longer| else |r.shorter|;
            i + n <= |s| && r.Scrub(s) == s[..i] + (r.mark + r.Scrub(s[i + n..]))
  {
    forall j: nat | j <= i
      ensures r.MatchAt(s, j) == if StandsAt(r.longer, s, j) then |r.longer| else if StandsAt(r.shorter, s, j) then |r.shorter| else 0
    {
      MatchIs(r, s, j);
    }
    hide OccursAt, StandsAt, Redactor.MatchAt, Redactor.ScrubFrom;
    ScrubsFirst(r, s, i);
  }

  /** Text in which no secret starts anywhere is returned as it is. */
  lemma ScrubClean(r: Redactor, s: ByteString)
    requires r.Valid()
    requires forall j: nat :: j < |s| ==> !StandsAt(r.longer, s, j) && !StandsAt(r.shorter, s, j)
    ensures r.Scrub(s) == s
  {
    forall j: nat | j < |s|
      ensures r.MatchAt(s, j) == 0
    {
      MatchIs(r, s, j);
    }
    ScrubSkips(r, s, 0, |s|);
    assert s[0..|s|] == s;
  }

  // ----- The safe boundary -----

  /** Where scanning from `i` first reaches or passes `end`. */
  function ScanEnd(r: Redactor, p: ByteString, i: nat, end: nat): (e: nat)
    requires r.Valid() && i <= |p| && end <= |p|
    ensures i <= e <= |p| && end <= e
    decreases |p| - i
  {
    if i >= end then i
    else if r.MatchAt(p, i) > 0 then ScanEnd(r, p, i + r.MatchAt(p, i), end)
    else ScanEnd(r, p, i + 1, end)
  }

  /** At a scanning position before the boundary `e`, the text so far, the text with more to come and the text cut at `e` match alike. */
  lemma MatchAgrees(r: Redactor, p: ByteString, t: ByteString, i: nat, e: nat)
    requires r.Valid() && i + |r.longer| <= |p| && i < e <= |p| && i + r.MatchAt(p, i) <= e
    ensures r.MatchAt(p + t, i) == r.MatchAt(p, i) == r.MatchAt(p[..e], i)
  {
  }

  /** Cutting `p` at the safe boundary `e` commutes with scrubbing: `more` is `p` with anything after it, `head` is `p` up to `e`, `tail` is the rest of `more`. */
  lemma {:induction false} CutCommutes(r: Redactor, p: ByteString, i: nat, end: nat,
                                       more: ByteString, head: ByteString, tail: ByteString)
    requires r.Valid() && i <= |p| && end + r.Overlap() <= |p| && p <= more
    requires var e := ScanEnd(r, p, i, end); head == p[..e] && tail == more[e..]
    ensures r.ScrubFrom(more, i) == r.ScrubFrom(head, i) + r.Scrub(tail)
    decreases |p| - i
  {
    hide OccursAt;
    var e := ScanEnd(r, p, i, end);
    if i >= end {
      ScrubShift(r, tail, more, i, 0);
    } else {
      MatchAgrees(r, p, more[|p|..], i, e);
      assert p + more[|p|..] == more;
      if r.MatchAt(p, i) > 0 {
        var j := i + r.MatchAt(p, i);
        CutCommutes(r, p, j, end, more, head, tail);
        Prepend(r.mark, r.ScrubFrom(more, j), r.ScrubFrom(head, j), r.Scrub(tail));
      } else {
        CutCommutes(r, p, i + 1, end, more, head, tail);
        Prepend([p[i]], r.ScrubFrom(more, i + 1), r.ScrubFrom(head, i + 1), r.Scrub(tail));
      }
    }
  }

  /** First match starting at or after `from`, as the pattern's iterator finds it; `|p|` for none. */
  function Search(r: Redactor, p: ByteString, from: nat): (start: nat)
    requires r.Valid() && from <= |p|
    ensures from <= start <= |p|
    ensures start < |p| ==> r.MatchAt(p, start) > 0
    decreases |p| - from
  {
    if from == |p| || r.MatchAt(p, from) > 0 then from else Search(r, p, from + 1)
  }

  lemma {:induction false} SearchSkips(r: Redactor, p: ByteString, from: nat, end: nat)
    requires r.Valid() && from <= |p| && end <= |p|
    ensures var s := Search(r, p, from);
            ScanEnd(r, p, from, end) == if s < end then ScanEnd(r, p, s, end) else if from < end then end else from
    decreases |p| - from
  {
    if from == |p| || r.MatchAt(p, from) > 0 {
    } else {
      SearchSkips(r, p, from + 1, end);
    }
  }

  function HeldBack(r: Redactor, p: ByteString): (end: nat)
    requires r.Valid()
    ensures end <= |p|
  {
    if |p| > r.Overlap() then |p| - r.Overlap() else 0
  }

  /** The boundary `stream` computes by walking the matches of `pending`. */
  method SafeEnd(r: Redactor, pending: ByteString) returns (end: nat)
    requires r.Valid()
    ensures end <= |pending|
    ensures end == ScanEnd(r, pending, 0, HeldBack(r, pending))
  {
    hide OccursAt, Redactor.MatchAt;
    var first := HeldBack(r, pending);
    end := first;
    var position := 0;
    while true
      invariant position <= |pending|
      invariant end == (if position > first then position else first)
      invariant ScanEnd(r, pending, 0, first) == ScanEnd(r, pending, position, first)
      decreases |pending| - position
    {
      var start := Search(r, pending, position);
      SearchSkips(r, pending, position, first);
      if start == |pending| || start >= end {
        break;
      }
      position := start + r.MatchAt(pending, start);
      end := if end > position then end else position;
    }
  }

  lemma CutAtSafeEnd(r: Redactor, pending: ByteString, later: ByteString, end: nat)
    requires r.Valid() && end == ScanEnd(r, pending, 0, HeldBack(r, pending)) && 0 < end
    ensures r.Scrub(pending + later) == r.Scrub(pending[..end]) + r.Scrub(pending[end..] + later)
  {
    hide OccursAt, Redactor.MatchAt;
    assert (pending + later)[end..] == pending[end..] + later;
    CutCommutes(r, pending, 0, HeldBack(r, pending), pending + later, pending[..end], pending[end..] + later);
  }

  lemma StreamStep(r: Redactor, yielded: seq<ByteString>, pending: ByteString, later: ByteString, end: nat)
    requires r.Valid() && end == ScanEnd(r, pending, 0, HeldBack(r, pending)) && 0 < end
    ensures Concat(yielded) + r.Scrub(pending + later)
            == Concat(yielded + [r.Scrub(pending[..end])]) + r.Scrub(pending[end..] + later)
  {
    CutAtSafeEnd(r, pending, later, end);
    hide Redactor.Scrub, Redactor.MatchAt, OccursAt, ScanEnd, HeldBack, Concat;
    ConcatAppend(yielded, r.Scrub(pending[..end]));
  }

  /** `stream`: the concatenation of what it yields is the one-shot scrub of the concatenated chunks, however the chunks were split. */
  method Stream(r: Redactor, chunks: seq<ByteString>) returns (yielded: seq<ByteString>)
    requires r.Valid()
    ensures Concat(yielded) == r.Scrub(Concat(chunks))
  {
    yielded := [];
    var pending: ByteString := [];
    assert chunks[0..] == chunks && pending + Concat(chunks) == Concat(chunks);
    var i := 0;
    while i < |chunks|
      invariant 0 <= i <= |chunks|
      invariant Concat(yielded) + r.Scrub(pending + Concat(chunks[i..])) == r.Scrub(Concat(chunks))
      invariant |pending| <= r.Overlap()
    {
      ghost var later := Concat(chunks[i + 1..]);
      assert pending + Concat(chunks[i..]) == pending + chunks[i] + later;
      pending := pending + chunks[i];
      var end := SafeEnd(r, pending);
      if end > 0 {
        StreamStep(r, yielded, pending, later, end);
        yielded := yielded + [r.Scrub(pending[..end])];
        pending := pending[end..];
      }
      i := i + 1;
    }
    assert pending + Concat(chunks[|chunks|..]) == pending;
    if pending != [] {
      ConcatAppend(yielded, r.Scrub(pending));
      yielded := yielded + [r.Scrub(pending)];
    }
  }
}
