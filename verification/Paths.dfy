/** Path names as lists of directory names, and the code that takes them apart. */
module Paths {
  import opened Words
  import opened Directories

  const SLASH: byte := 47
  const BACKSLASH: byte := 92

  /** A C string's text: bytes other than NUL, which is read just past the end. */
  type Text = s: seq<byte> | forall i :: 0 <= i < |s| ==> s[i] != 0

  function CharAt(p: Text, i: nat): (c: byte)
    ensures c == 0 <==> i >= |p|
  {
    if i < |p| then p[i] else 0
  }

  /** How many characters come before the next slash or the end. */
  function WordLen(p: Text): (n: nat)
    ensures n <= |p| && (forall i :: 0 <= i < n ==> p[i] != SLASH) && (n < |p| ==> p[n] == SLASH)
  {
    if p == [] || p[0] == SLASH then 0 else 1 + WordLen(p[1..])
  }

  function Cut(w: Text): (r: Text)
    ensures |r| <= DIRSIZ && r <= w
  {
    if |w| <= DIRSIZ then w else w[..DIRSIZ]
  }

  /** A name cut to its longest length and filled up with NUL. */
  function Pad(w: Text): Name {
    Cut(w) + seq(DIRSIZ - |Cut(w)|, _ => 0)
  }

  /** The names between the slashes; empty ones do not count. */
  function Components(p: Text): seq<Name>
    decreases |p|
  {
    if p == [] then []
    else if p[0] == SLASH then Components(p[1..])
    else [Pad(p[..WordLen(p)])] + Components(p[WordLen(p)..])
  }

  lemma WordIs(p: Text, n: nat)
    requires n <= |p| && (forall i :: 0 <= i < n ==> p[i] != SLASH) && (n < |p| ==> p[n] == SLASH)
    ensures WordLen(p) == n
  {
  }

  lemma CutGrows(w: Text, c: byte)
    requires c != 0
    ensures Cut(w + [c]) == if |Cut(w)| < DIRSIZ then Cut(w) + [c] else Cut(w)
  {
  }

  /** Moves past slashes. */
  method SkipSlashes(path: Text, start: nat) returns (cursor: nat)
    requires start <= |path|
    ensures start <= cursor <= |path| && CharAt(path, cursor) != SLASH
    ensures Components(path[cursor..]) == Components(path[start..])
  {
    cursor := start;
    while CharAt(path, cursor) == SLASH
      invariant start <= cursor <= |path| && Components(path[cursor..]) == Components(path[start..])
      decreases |path| - cursor
    {
      assert path[cursor..][1..] == path[cursor + 1..];
      cursor := cursor + 1;
    }
  }

  lemma OneMore(path: Text, start: nat, n: nat)
    requires start + n < |path|
    ensures path[start..][n] == path[start + n]
    ensures path[start..][..n + 1] == path[start..][..n] + [path[start + n]]
  {
  }

  /** Copies the characters up to the next slash or the end, as many as a name can have. */
  method TakeWord(path: Text, start: nat) returns (component: Text, cursor: nat)
    requires start <= |path|
    ensures cursor == start + WordLen(path[start..]) <= |path|
    ensures component == Cut(path[start..][..WordLen(path[start..])])
  {
    hide Cut, Components;
    ghost var w := path[start..];
    cursor, component := start, [];
    ghost var n := 0;
    assert Cut(w[..0]) == [];
    while CharAt(path, cursor) != 0 && CharAt(path, cursor) != SLASH
      invariant 0 <= n <= |w| && cursor == start + n
      invariant component == Cut(w[..n]) && forall i :: 0 <= i < n ==> w[i] != SLASH
      decreases |w| - n
    {
      OneMore(path, start, n);
      CutGrows(w[..n], w[n]);
      if |component| < DIRSIZ {
        component := component + [path[cursor]];
      }
      cursor := cursor + 1;
      n := n + 1;
    }
    WordIs(w, n);
  }

  lemma FirstComponent(p: Text)
    requires p != [] && p[0] != SLASH
    ensures WordLen(p) > 0 && Components(p) == [Pad(p[..WordLen(p)])] + Components(p[WordLen(p)..])
  {
  }

  lemma RestOfRest(path: Text, start: nat, n: nat)
    requires start + n <= |path|
    ensures path[start..][n..] == path[start + n..]
  {
  }

  lemma PadCut(w: Text)
    ensures Pad(Cut(w)) == Pad(w)
  {
  }

  /** `FSDebugger::ExtractPathComponent` and `extract_path_component`: the next name, if any, and the rest. */
  method ExtractPathComponent(path: Text, start: nat) returns (some: bool, component: Text, cursor: nat)
    requires start <= |path|
    ensures start <= cursor <= |path|
    ensures some <==> Components(path[start..]) != []
    ensures some ==> Components(path[start..]) == [Pad(component)] + Components(path[cursor..])
    ensures some ==> cursor > start && |component| <= DIRSIZ
  {
    hide Pad, Cut, WordLen;
    cursor := SkipSlashes(path, start);
    if CharAt(path, cursor) == 0 {
      return false, [], cursor;
    }
    some := true;
    ghost var w := path[cursor..];
    FirstComponent(w);
    RestOfRest(path, cursor, WordLen(w));
    PadCut(w[..WordLen(w)]);
    component, cursor := TakeWord(path, cursor);
  }

  /**
   `DirectoryEntryNameEquals` and `directory_entry_name_equals`: comparing a padded name with a C
   string is comparing it with that string, padded.
   */
  method NameEquals(entryName: Name, component: Text) returns (same: bool)
    requires |component| <= DIRSIZ
    ensures same <==> entryName == Pad(component)
  {
    var i := 0;
    while i < DIRSIZ
      invariant 0 <= i <= DIRSIZ && i <= |component| && entryName[..i] == component[..i]
    {
      var rhs := CharAt(component, i);
      if rhs == 0 {
        while i < DIRSIZ
          invariant |component| <= i <= DIRSIZ && forall j :: |component| <= j < i ==> entryName[j] == 0
        {
          if entryName[i] != 0 {
            assert Pad(component)[i] == 0;
            return false;
          }
          i := i + 1;
        }
        assert entryName == Pad(component);
        return true;
      }
      if entryName[i] != rhs {
        assert Pad(component)[i] == component[i];
        return false;
      }
      i := i + 1;
    }
    assert entryName == Pad(component);
    same := CharAt(component, DIRSIZ) == 0;
  }

  // normalize_path

  const PATH_MAX := 256

  /** Backslashes read as slashes. */
  function Slashes(p: Text): (r: Text)
    ensures |r| == |p| && forall i :: 0 <= i < |p| ==> r[i] == if p[i] == BACKSLASH then SLASH else p[i]
  {
    seq(|p|, i requires 0 <= i < |p| => if p[i] == BACKSLASH then SLASH else p[i])
  }

  /** Runs of slashes merged into one; `last` says whether a slash came just before. */
  function Merged(p: Text, last: bool): (r: Text)
    ensures |r| <= |p|
  {
    if p == [] then []
    else if p[0] == SLASH then (if last then [] else [SLASH]) + Merged(p[1..], true)
    else [p[0]] + Merged(p[1..], false)
  }

  function Stripped(p: Text): (r: Text)
    ensures r <= p
  {
    if |p| > 1 && p[|p| - 1] == SLASH then Stripped(p[..|p| - 1]) else p
  }

  /** What `normalize_path` makes of a path, cut off where the buffer ends. */
  function Normal(p: Text): Text {
    var m := Merged(Slashes(p), true);
    Stripped([SLASH] + if |m| < PATH_MAX - 1 then m else m[..PATH_MAX - 2])
  }

  /** What is still to be copied from position `i` on. */
  function Ahead(raw: Text, i: nat, last: bool): Text
    requires i <= |raw|
  {
    Merged(Slashes(raw[i..]), last)
  }

  lemma NextAhead(raw: Text, i: nat, last: bool)
    requires i < |raw|
    ensures var ch := if raw[i] == BACKSLASH then SLASH else raw[i];
            Ahead(raw, i, last) == if ch == SLASH && last then Ahead(raw, i + 1, true)
                                   else [ch] + Ahead(raw, i + 1, ch == SLASH)
  {
    var p := raw[i..];
    assert p[1..] == raw[i + 1..];
    assert Slashes(p)[1..] == Slashes(p[1..]);
  }

  lemma AheadAtEnds(raw: Text, last: bool)
    ensures Ahead(raw, 0, true) == Merged(Slashes(raw), true) && Ahead(raw, |raw|, last) == []
  {
    assert raw[0..] == raw;
  }

  lemma OneCharMore(m: Text, k: nat, ch: byte, rest: Text)
    requires k <= |m| && ch != 0 && m[k..] == [ch] + rest
    ensures k < |m| && [SLASH] + m[..k] + [ch] == [SLASH] + m[..k + 1] && m[k + 1..] == rest
  {
    assert m[k] == m[k..][0] && m[k + 1..] == m[k..][1..];
  }

  /** The copying loop of `normalize_path`. */
  method MergeSlashes(raw: Text) returns (out: Text)
    ensures var m := Merged(Slashes(raw), true);
            out == [SLASH] + (if |m| < PATH_MAX - 1 then m else m[..PATH_MAX - 2])
  {
    hide Slashes, Merged, Ahead;
    ghost var m := Merged(Slashes(raw), true);
    out := [SLASH];
    var src, lastWasSlash := 0, true;
    AheadAtEnds(raw, true);
    AheadAtEnds(raw, false);
    while CharAt(raw, src) == SLASH
      invariant src <= |raw| && m == Ahead(raw, src, true)
      decreases |raw| - src
    {
      NextAhead(raw, src, true);
      src := src + 1;
    }
    ghost var k := 0;
    assert m[0..] == m;
    while CharAt(raw, src) != 0 && |out| < PATH_MAX - 1
      invariant src <= |raw| && 0 <= k <= |m| && |out| == k + 1 < PATH_MAX && out == [SLASH] + m[..k]
      invariant m[k..] == Ahead(raw, src, lastWasSlash)
      decreases |raw| - src
    {
      NextAhead(raw, src, lastWasSlash);
      var ch := raw[src];
      src := src + 1;
      if ch == BACKSLASH {
        ch := SLASH;
      }
      if ch == SLASH {
        if lastWasSlash {
          continue;
        }
        lastWasSlash := true;
      } else {
        lastWasSlash := false;
      }
      OneCharMore(m, k, ch, Ahead(raw, src, lastWasSlash));
      out := out + [ch];
      k := k + 1;
    }
    assert m[..|m|] == m;
  }

  /** `normalize_path` of the JSON debugger. */
  method NormalizePath(raw: Text) returns (out: Text)
    ensures out == Normal(raw) && |out| < PATH_MAX
  {
    hide Slashes, Merged;
    if CharAt(raw, 0) == 0 {
      NothingToNormalize();
      return [SLASH];
    }
    out := MergeSlashes(raw);
    while |out| > 1 && out[|out| - 1] == SLASH
      invariant Stripped(out) == Normal(raw) && |out| < PATH_MAX
      decreases |out|
    {
      out := out[..|out| - 1];
    }
  }

  lemma NothingToNormalize()
    ensures Normal([]) == [SLASH]
  {
  }

  // The normal form.

  predicate TwoSlashes(p: Text, i: int) {
    0 <= i < |p| - 1 && p[i] == SLASH && p[i + 1] == SLASH
  }

  /** No two slashes lie side by side, also with one before the path if `last`. */
  predicate Single(p: Text, last: bool) {
    (forall i :: 0 <= i < |p| ==> !TwoSlashes(p, i)) && (last && p != [] ==> p[0] != SLASH)
  }

  predicate IsNormal(p: Text) {
    p != [] && p[0] == SLASH && BACKSLASH !in p && Single(p[1..], true) && (|p| > 1 ==> p[|p| - 1] != SLASH)
  }

  lemma {:induction false} MergedIsSingle(p: Text, last: bool)
    ensures Single(Merged(p, last), last) && forall c :: c in Merged(p, last) ==> c in p
    decreases |p|
  {
    if p != [] {
      var m, rest := Merged(p, last), Merged(p[1..], p[0] == SLASH);
      MergedIsSingle(p[1..], p[0] == SLASH);
      if m != rest {
        assert m == [p[0]] + rest;
        forall i | 0 <= i < |m| ensures !TwoSlashes(m, i) {
          assert i > 0 ==> !TwoSlashes(rest, i - 1);
        }
      }
    }
  }

  lemma {:induction false} SingleIsMerged(p: Text, last: bool)
    requires Single(p, last)
    ensures Merged(p, last) == p
    decreases |p|
  {
    if p != [] {
      forall i | 0 <= i < |p[1..]| ensures !TwoSlashes(p[1..], i) {
        assert !TwoSlashes(p, i + 1);
      }
      assert !TwoSlashes(p, 0);
      SingleIsMerged(p[1..], p[0] == SLASH);
    }
  }

  lemma {:induction false} SinglePrefix(p: Text, n: nat, last: bool)
    requires Single(p, last) && n <= |p|
    ensures Single(p[..n], last)
  {
    forall i | 0 <= i < n ensures !TwoSlashes(p[..n], i) {
      assert !TwoSlashes(p, i);
    }
  }

  lemma {:induction false} StrippedEnd(p: Text)
    requires p != []
    ensures Stripped(p) != [] && (|Stripped(p)| > 1 ==> Stripped(p)[|Stripped(p)| - 1] != SLASH)
    decreases |p|
  {
    if |p| > 1 && p[|p| - 1] == SLASH {
      StrippedEnd(p[..|p| - 1]);
    }
  }

  /** The result starts with a slash and ends in none, has no two side by side, and no backslash. */
  lemma {:induction false} NormalIsNormal(raw: Text)
    ensures IsNormal(Normal(raw)) && |Normal(raw)| < PATH_MAX
  {
    hide Merged, Stripped, Single;
    var m := Merged(Slashes(raw), true);
    MergedIsSingle(Slashes(raw), true);
    var kept := if |m| < PATH_MAX - 1 then m else m[..PATH_MAX - 2];
    SinglePrefix(m, |kept|, true);
    assert kept == m[..|kept|];
    var r := Normal(raw);
    StrippedEnd([SLASH] + kept);
    SinglePrefix(kept, |r| - 1, true);
    assert r == ([SLASH] + kept)[..|r|] && r[1..] == kept[..|r| - 1];
    forall i | 0 < i < |r| ensures r[i] != BACKSLASH {
      assert r[i] == m[i - 1] && m[i - 1] in m;
    }
  }

  /** A path in normal form stays as it is, so normalizing again changes nothing. */
  lemma {:induction false} NormalStays(path: Text)
    requires IsNormal(path) && |path| < PATH_MAX
    ensures Normal(path) == path
  {
    hide Merged, Single;
    NoBackslashes(path);
    SingleIsMerged(path[1..], true);
    MergedSlash(path[1..]);
    assert [SLASH] + path[1..] == path;
  }

  lemma {:induction false} MergedSlash(p: Text)
    ensures Merged([SLASH] + p, true) == Merged(p, true)
  {
    assert ([SLASH] + p)[1..] == p;
  }

  // Normalizing does not change what a path means.

  lemma SkipSlash(p: Text)
    ensures Components([SLASH] + p) == Components(p)
  {
    assert ([SLASH] + p)[1..] == p;
  }

  lemma {:induction false} MergedWord(p: Text, last: bool, n: nat)
    requires 0 < n <= |p| && forall i :: 0 <= i < n ==> p[i] != SLASH
    ensures Merged(p, last) == p[..n] + Merged(p[n..], false)
    decreases n
  {
    if n == 1 {
      assert [p[0]] == p[..1];
    } else {
      var q := p[1..];
      MergedWord(q, false, n - 1);
      assert q[n - 1..] == p[n..] && [p[0]] + q[..n - 1] == p[..n];
    }
  }

  lemma {:induction false} MergedMeansTheSame(p: Text, last: bool)
    ensures Components(Merged(p, last)) == Components(p)
    decreases |p|
  {
    hide Pad;
    if p == [] {
    } else if p[0] == SLASH {
      var m := Merged(p[1..], true);
      MergedMeansTheSame(p[1..], true);
      SkipSlash(m);
      assert Merged(p, last) == if last then m else [SLASH] + m;
    } else {
      MergedMeansTheSame(p[WordLen(p)..], false);
      MergedKeepsWord(p, last);
    }
  }

  lemma MergedKeepsWord(p: Text, last: bool)
    requires p != [] && p[0] != SLASH
    requires Components(Merged(p[WordLen(p)..], false)) == Components(p[WordLen(p)..])
    ensures Components(Merged(p, last)) == Components(p)
  {
    hide Pad, Components;
    var n, m := WordLen(p), Merged(p, last);
    FirstComponent(p);
    MergedWord(p, last, n);
    WordOfJoined(p[..n], Merged(p[n..], false));
    FirstComponent(m);
  }

  /** Where the first word of a joined text ends. */
  lemma WordOfJoined(w: Text, t: Text)
    requires w != [] && forall i :: 0 <= i < |w| ==> w[i] != SLASH
    requires t != [] ==> t[0] == SLASH
    ensures WordLen(w + t) == |w| && (w + t)[..|w|] == w && (w + t)[|w|..] == t && (w + t)[0] != SLASH
  {
    WordIs(w + t, |w|);
  }

  lemma {:induction false} TrailingSlash(p: Text)
    ensures Components(p + [SLASH]) == Components(p)
    decreases |p|
  {
    if p == [] {
      assert (p + [SLASH])[1..] == [];
    } else if p[0] == SLASH {
      TrailingSlash(p[1..]);
      assert (p + [SLASH])[1..] == p[1..] + [SLASH];
    } else {
      var n := WordLen(p);
      TrailingSlash(p[n..]);
      WordIs(p + [SLASH], n);
      FirstComponent(p);
      FirstComponent(p + [SLASH]);
      assert (p + [SLASH])[..n] == p[..n] && (p + [SLASH])[n..] == p[n..] + [SLASH];
    }
  }

  lemma {:induction false} StrippedMeansTheSame(p: Text)
    ensures Components(Stripped(p)) == Components(p)
    decreases |p|
  {
    hide Components;
    if |p| > 1 && p[|p| - 1] == SLASH {
      StrippedMeansTheSame(p[..|p| - 1]);
      TrailingSlash(p[..|p| - 1]);
      assert p == p[..|p| - 1] + [SLASH];
    }
  }

  /** A path that fits the buffer keeps its names. */
  lemma NormalMeansTheSame(p: Text)
    requires |Merged(Slashes(p), true)| < PATH_MAX - 1
    ensures Components(Normal(p)) == Components(Slashes(p))
  {
    var m := Merged(Slashes(p), true);
    StrippedMeansTheSame([SLASH] + m);
    SkipSlash(m);
    MergedMeansTheSame(Slashes(p), true);
  }

  lemma NoBackslashes(p: Text)
    requires forall i :: 0 <= i < |p| ==> p[i] != BACKSLASH
    ensures Slashes(p) == p
  {
  }

  // Taking apart what was put together.

  predicate IsWord(w: Text) {
    w != [] && SLASH !in w
  }

  /** The path of a list of names, a slash before each. */
  function PathOf(words: seq<Text>): Text {
    if words == [] then [] else [SLASH] + words[0] + PathOf(words[1..])
  }

  lemma {:induction false} PaddedChars(w: Text, k: nat)
    requires k < DIRSIZ
    ensures Pad(w)[k] == CharAt(w, k)
  {
  }

  lemma {:induction false} FirstOfPath(words: seq<Text>)
    requires words != [] && IsWord(words[0])
    ensures Components(PathOf(words)) == [Pad(words[0])] + Components(PathOf(words[1..]))
  {
    hide Pad;
    var w, rest := words[0], PathOf(words[1..]);
    assert PathOf(words) == [SLASH] + (w + rest);
    SkipSlash(w + rest);
    WordOfJoined(w, rest);
  }

  /** A path put together from names is taken apart into these, each cut to 28 characters and filled up with NUL. */
  lemma {:induction false} PathOfNames(words: seq<Text>)
    requires forall i :: 0 <= i < |words| ==> IsWord(words[i])
    ensures var names := Components(PathOf(words));
            && |names| == |words|
            && forall i, k :: 0 <= i < |words| && 0 <= k < DIRSIZ ==> names[i][k] == CharAt(words[i], k)
    decreases |words|
  {
    hide Components, Pad, PathOf;
    if words == [] {
      EmptyPath();
    } else {
      FirstOfPath(words);
      PathOfNames(words[1..]);
      forall k | 0 <= k < DIRSIZ ensures Pad(words[0])[k] == CharAt(words[0], k) {
        PaddedChars(words[0], k);
      }
      var names, rest := Components(PathOf(words)), Components(PathOf(words[1..]));
      forall i, k | 0 <= i < |words| && 0 <= k < DIRSIZ ensures names[i][k] == CharAt(words[i], k) {
        assert i > 0 ==> names[i] == rest[i - 1] && words[i] == words[1..][i - 1];
      }
    }
  }

  lemma EmptyPath()
    ensures Components(PathOf([])) == []
  {
  }
}
