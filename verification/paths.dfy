/** Repository-relative paths: their text, their components, and the syntax rules they must pass. */
module Paths {
  datatype Result<+T> = Ok(value: T) | Err

  const MAX_PATH_BYTES := 1024
  const MAX_PATH_COMPONENTS := 16
  const RESERVED_MANIFEST_NAME := "__ompire_result_manifest__.json"
  const RESERVED_ROOT_FILES: set<string> := {"workshop.yaml", "workshop.my.yaml"}

  // ----- Splitting and joining -----

  function Split(s: string): (parts: seq<string>)
    ensures |parts| > 0
  {
    if s == [] then [""]
    else
      var rest := Split(s[1..]);
      if s[0] == '/' then [""] + rest else [[s[0]] + rest[0]] + rest[1..]
  }

  function Join(parts: seq<string>): string {
    if parts == [] then "" else if |parts| == 1 then parts[0] else parts[0] + "/" + Join(parts[1..])
  }

  lemma JoinHead(c: char, parts: seq<string>)
    requires parts != []
    ensures Join([[c] + parts[0]] + parts[1..]) == [c] + Join(parts)
  {
    var longer := [[c] + parts[0]] + parts[1..];
    assert longer[1..] == parts[1..];
    if |parts| > 1 {
      assert [c] + parts[0] + "/" + Join(parts[1..]) == [c] + (parts[0] + "/" + Join(parts[1..]));
    }
  }

  lemma {:induction false} JoinSplit(s: string)
    ensures Join(Split(s)) == s
  {
    if s != [] {
      JoinSplit(s[1..]);
      if s[0] != '/' {
        JoinHead(s[0], Split(s[1..]));
      } else {
        assert ([""] + Split(s[1..]))[1..] == Split(s[1..]);
      }
    }
  }

  lemma {:induction false} SplitWord(word: string, rest: string)
    requires '/' !in word
    ensures Split(word + "/" + rest) == [word] + Split(rest)
  {
    if word == [] {
      assert (word + "/" + rest)[1..] == rest;
    } else {
      assert word[0] in word;
      assert (word + "/" + rest)[1..] == word[1..] + "/" + rest;
      SplitWord(word[1..], rest);
      assert [word[0]] + word[1..] == word;
    }
  }

  lemma {:induction false} SplitOne(word: string)
    requires '/' !in word
    ensures Split(word) == [word]
  {
    if word != [] {
      assert word[0] in word;
      SplitOne(word[1..]);
      assert [word[0]] + word[1..] == word;
    }
  }

  lemma {:induction false} SplitJoin(parts: seq<string>)
    requires parts != [] && forall p <- parts :: '/' !in p
    ensures Split(Join(parts)) == parts
  {
    if |parts| == 1 {
      SplitOne(parts[0]);
    } else {
      SplitWord(parts[0], Join(parts[1..]));
      SplitJoin(parts[1..]);
    }
  }

  lemma {:induction false} NoSlashes(s: string)
    ensures forall p <- Split(s) :: '/' !in p
  {
    if s != [] {
      NoSlashes(s[1..]);
      assert Split(s[1..])[0] in Split(s[1..]);
    }
  }

  /** Different texts have different components. */
  lemma SplitInjective(a: string, b: string)
    requires Split(a) == Split(b)
    ensures a == b
  {
    JoinSplit(a);
    JoinSplit(b);
  }

  /** A slash between two texts joins their components. */
  lemma {:induction false} SplitBoth(a: string, b: string)
    ensures Split(a + "/" + b) == Split(a) + Split(b)
  {
    var both := a + "/" + b;
    if a == [] {
      assert both[1..] == b;
    } else {
      assert both[1..] == a[1..] + "/" + b;
      SplitBoth(a[1..], b);
    }
  }

  /** `_ancestors`: every directory a path needs. */
  function Ancestors(path: string): set<string> {
    var parts := Split(path);
    set m: nat | 0 < m < |parts| :: Join(parts[..m])
  }

  /** A path is among another's ancestors exactly when its components are a proper prefix of the other's. */
  lemma AncestorsArePrefixes(a: string, b: string)
    ensures a in Ancestors(b) <==> |Split(a)| < |Split(b)| && Split(a) == Split(b)[..|Split(a)|]
  {
    var parts := Split(b);
    NoSlashes(b);
    if a in Ancestors(b) {
      var m: nat :| 0 < m < |parts| && a == Join(parts[..m]);
      SplitJoin(parts[..m]);
    }
    if |Split(a)| < |parts| && Split(a) == parts[..|Split(a)|] {
      JoinSplit(a);
    }
  }

  // ----- The syntax rules -----

  /** What `str.strip` removes. */
  predicate IsSpace(c: char) {
    var n := c as int;
    9 <= n <= 13 || 28 <= n <= 32 || n == 0x85 || n == 0xa0 || n == 0x1680 || 0x2000 <= n <= 0x200a
    || n == 0x2028 || n == 0x2029 || n == 0x202f || n == 0x205f || n == 0x3000
  }

  function StripLeft(s: string): (r: string)
    ensures |r| <= |s|
  {
    if s != [] && IsSpace(s[0]) then StripLeft(s[1..]) else s
  }

  function StripRight(s: string): (r: string)
    ensures r <= s
  {
    if s != [] && IsSpace(s[|s| - 1]) then StripRight(s[..|s| - 1]) else s
  }

  function Strip(s: string): string {
    StripRight(StripLeft(s))
  }

  predicate StartsWithSpace(s: string) {
    s != "" && IsSpace(s[0])
  }

  predicate Stripped(s: string) {
    s == "" || (!IsSpace(s[0]) && !IsSpace(s[|s| - 1]))
  }

  lemma {:induction false} StripLeftEnds(s: string)
    ensures StripLeft(s) == "" || !IsSpace(StripLeft(s)[0])
  {
    if s != [] && IsSpace(s[0]) {
      StripLeftEnds(s[1..]);
    }
  }

  lemma {:induction false} StripRightEnds(s: string)
    ensures StripRight(s) == "" || !IsSpace(StripRight(s)[|StripRight(s)| - 1])
  {
    if s != [] && IsSpace(s[|s| - 1]) {
      StripRightEnds(s[..|s| - 1]);
    }
  }

  lemma StripStripped(s: string)
    ensures Stripped(Strip(s)) && (Stripped(s) ==> Strip(s) == s)
  {
    StripLeftEnds(s);
    StripRightEnds(StripLeft(s));
  }

  /** Only spaces are taken from the end. */
  lemma {:induction false} StripRightPads(s: string) returns (pad: string)
    ensures s == StripRight(s) + pad && forall c <- pad :: IsSpace(c)
  {
    if s != [] && IsSpace(s[|s| - 1]) {
      var rest := StripRightPads(s[..|s| - 1]);
      pad := rest + [s[|s| - 1]];
      assert s == s[..|s| - 1] + [s[|s| - 1]];
    } else {
      pad := [];
    }
  }

  ghost predicate Spaces(s: string) {
    forall c <- s :: IsSpace(c)
  }

  lemma {:induction false} StripLeftPads(s: string) returns (pad: string)
    ensures s == pad + StripLeft(s) && Spaces(pad)
  {
    if s != [] && IsSpace(s[0]) {
      var rest := StripLeftPads(s[1..]);
      pad := [s[0]] + rest;
      assert s == [s[0]] + s[1..];
    } else {
      pad := [];
    }
  }

  lemma {:induction false} StripLeftPadded(pad: string, s: string)
    requires Spaces(pad) && (s == "" || !IsSpace(s[0]))
    ensures StripLeft(pad + s) == s
  {
    if pad == [] {
      assert pad + s == s;
    } else {
      assert pad[0] in pad && (pad + s)[1..] == pad[1..] + s;
      StripLeftPadded(pad[1..], s);
    }
  }

  lemma {:induction false} StripRightPadded(s: string, pad: string)
    requires Spaces(pad) && (s == "" || !IsSpace(s[|s| - 1]))
    ensures StripRight(s + pad) == s
  {
    if pad == [] {
      assert s + pad == s;
    } else {
      var front := pad[..|pad| - 1];
      assert pad[|pad| - 1] in pad && (s + pad)[..|s + pad| - 1] == s + front;
      StripRightPadded(s, front);
    }
  }

  lemma SpacesAt(s: string)
    requires Spaces(s)
    ensures forall i: nat :: i < |s| ==> IsSpace(s[i])
  {
    forall i: nat | i < |s|
      ensures IsSpace(s[i])
    {
      assert s[i] in s;
    }
  }

  lemma NoSpaceInFront(front: string, s: string)
    requires Spaces(front) && Stripped(front + s)
    ensures front == ""
  {
    SpacesAt(front);
  }

  lemma NoSpaceBehind(s: string, back: string)
    requires Spaces(back) && Stripped(s + back)
    ensures back == ""
  {
    SpacesAt(back);
  }

  lemma SlashBehind(s: string)
    requires s != "" && s[|s| - 1] == '/'
    ensures "" in Split(s)
  {
    var front := s[..|s| - 1];
    SplitBoth(front, "");
    assert s == front + "/" + "";
    assert Split(s)[|Split(front)|] == "";
  }

  /** Stripping leaves exactly the text between the spaces at both ends. */
  lemma StripExact(s: string, text: string)
    ensures Strip(s) == text <==> Stripped(text) && exists a, b :: Padded(s, a, text, b)
  {
    if Strip(s) == text {
      StripStripped(s);
      var a := StripLeftPads(s);
      var b := StripRightPads(StripLeft(s));
      assert s == a + text + b;
      assert Padded(s, a, text, b);
    } else if Stripped(text) {
      forall a, b | Padded(s, a, text, b)
        ensures false
      {
        StripPadded(a, text, b);
      }
    }
  }

  ghost predicate Padded(s: string, a: string, text: string, b: string) {
    s == a + text + b && Spaces(a) && Spaces(b)
  }

  lemma StripPadded(a: string, text: string, b: string)
    requires Stripped(text) && Spaces(a) && Spaces(b)
    ensures Strip(a + text + b) == text
  {
    if text == "" {
      assert Spaces(a + b) && a + text + b == (a + b) + "";
      StripLeftPadded(a + b, "");
    } else {
      assert a + text + b == a + (text + b);
      StripLeftPadded(a, text + b);
      StripRightPadded(text, b);
    }
  }

  /** A slash shields what stands before it. */
  lemma {:induction false} StripRightAfter(front: string, s: string)
    ensures StripRight(front + "/" + s) == front + "/" + StripRight(s)
  {
    if s != [] {
      assert (front + "/" + s)[..|front + "/" + s| - 1] == front + "/" + s[..|s| - 1];
      StripRightAfter(front, s[..|s| - 1]);
    }
  }

  /** What is appended without a slash changes the last component only. */
  lemma {:induction false} SplitPadded(s: string, pad: string)
    requires '/' !in pad
    ensures |Split(s + pad)| == |Split(s)| && forall i: nat :: i < |Split(s)| - 1 ==> Split(s + pad)[i] == Split(s)[i]
  {
    if s == [] {
      SplitOne(pad);
      assert s + pad == pad;
    } else {
      assert (s + pad)[1..] == s[1..] + pad;
      SplitPadded(s[1..], pad);
    }
  }

  lemma AncestorsPadded(s: string, pad: string)
    requires '/' !in pad
    ensures Ancestors(s + pad) == Ancestors(s)
  {
    var long, short := Split(s + pad), Split(s);
    SplitPadded(s, pad);
    forall m: nat | 0 < m < |short|
      ensures long[..m] == short[..m]
    {
    }
    assert forall a :: a in Ancestors(s + pad) <==> exists m: nat :: 0 < m < |long| && a == Join(long[..m]);
    assert forall a :: a in Ancestors(s) <==> exists m: nat :: 0 < m < |short| && a == Join(short[..m]);
  }

  /** The directories a path asks for, as given and as validated: the same, unless it starts with a space, and then none of them is a validated path. */
  lemma AncestorsGiven(entry: string, d: string)
    requires Validate(entry).Ok? && Canonical(d)
    ensures d in Ancestors(entry) <==> d in Ancestors(Validate(entry).value) && !StartsWithSpace(entry)
  {
    ValidateExact(entry);
    if IsSpace(entry[0]) {
      forall m: nat | 0 < m < |Split(entry)|
        ensures Join(Split(entry)[..m]) != d
      {
      }
    } else {
      var pad := StripRightPads(entry);
      assert '/' !in pad;
      AncestorsPadded(Strip(entry), pad);
    }
  }

  predicate IsControl(c: char) {
    c as int < 32 || c as int == 127
  }

  /** Bytes of one character in UTF-8. */
  function Utf8Size(c: char): nat {
    var n := c as int;
    if n < 0x80 then 1 else if n < 0x800 then 2 else if n < 0x10000 then 3 else 4
  }

  function Utf8Length(s: string): nat {
    if s == [] then 0 else Utf8Size(s[0]) + Utf8Length(s[1..])
  }

  /** A component that may be captured: not empty, and not dot-prefixed, which shuts out `.`, `..` and every hidden name. */
  predicate Ordinary(component: string) {
    component != "" && component[0] != '.'
  }

  /** A path text that needs no normalisation and breaks no rule. */
  predicate Canonical(text: string) {
    && text != "" && Stripped(text)
    && (forall c <- text :: !IsControl(c) && c != '\\')
    && text[0] != '/'
    && Utf8Length(text) <= MAX_PATH_BYTES
    && |Split(text)| <= MAX_PATH_COMPONENTS
    && (forall p <- Split(text) :: Ordinary(p))
    && Split(text)[|Split(text)| - 1] != RESERVED_MANIFEST_NAME
  }

  /** `validate_relative_path` */
  function Validate(entry: string): Result<string> {
    var text := Strip(entry);
    if text == "" then Err
    else if exists c <- text :: IsControl(c) then Err
    else if '\\' in text then Err
    else if text[0] == '/' then Err
    else if Utf8Length(text) > MAX_PATH_BYTES then Err
    else if |Split(text)| > MAX_PATH_COMPONENTS then Err
    else if exists p <- Split(text) :: !Ordinary(p) then Err
    else if Split(text)[|Split(text)| - 1] == RESERVED_MANIFEST_NAME then Err
    else Ok(text)
  }

  /** Validation accepts exactly the entries whose stripped text is canonical, and returns that text; canonical texts come back unchanged. */
  lemma ValidateExact(entry: string)
    ensures Validate(entry) == if Canonical(Strip(entry)) then Ok(Strip(entry)) else Err
    ensures Validate(entry).Ok? ==> Canonical(Validate(entry).value) && Validate(Validate(entry).value) == Validate(entry)
    ensures Canonical(entry) ==> Validate(entry) == Ok(entry)
  {
    StripStripped(entry);
    StripStripped(Strip(entry));
  }
}
