/**
  What scripts/lint-cache.py hashes for a translation unit: the salt, then the
  path and the hash of each dependency with nothing in between, and when that
  text determines what went into it.
 */
module LintMessage {
  import opened Outcomes

  /** What a dependency record names, with the contents found there, if any. */
  datatype Entry = Entry(path: string, contents: Option<string>)

  type View = seq<Entry>

  const MISSING := "MISSING"

  predicate IsHexDigit(c: char)
  {
    '0' <= c <= '9' || 'a' <= c <= 'f'
  }

  lemma HexDigitIs(c: char)
    ensures IsHexDigit(c) <==> c in "0123456789abcdef"
  {
    var all := "0123456789abcdef";
    assert forall k :: 0 <= k < 16 ==> IsHexDigit(all[k]);
    if IsHexDigit(c) {
      assert all[if c <= '9' then c as int - '0' as int else c as int - 'a' as int + 10] == c;
    }
  }

  /** `hexdigest()` of a SHA-256. */
  predicate IsDigest(h: string)
  {
    |h| == 64 && forall k :: 0 <= k < |h| ==> IsHexDigit(h[k])
  }

  ghost predicate IsHash(sha: string -> string)
  {
    forall x :: IsDigest(sha(x))
  }

  /** No two of the strings hashed have the same digest. */
  ghost predicate CollisionFree(sha: string -> string, hashed: set<string>)
  {
    forall x, y :: x in hashed && y in hashed && sha(x) == sha(y) ==> x == y
  }

  function HashOf(sha: string -> string, contents: Option<string>): string
  {
    match contents
    case None => MISSING
    case Some(text) => sha(text)
  }

  /** What is fed to the key's hash after the salt: paths and hashes with nothing in between. */
  function Body(sha: string -> string, view: View): string
  {
    if view == [] then "" else view[0].path + HashOf(sha, view[0].contents) + Body(sha, view[1..])
  }

  // --- The message determines what went into it ----------------------------------------

  /** The first character of a digest or of MISSING. */
  predicate StartsHash(c: char)
  {
    IsHexDigit(c) || c == 'M'
  }

  /**
    Where a path continues another one, it does so with a character no hash
    starts with, as axl-json.hpp does axl-json.h; and no path holds a line break.
   */
  ghost predicate GoodPaths(paths: set<string>)
  {
    && (forall p, q :: p in paths && q in paths && p <= q && p != q ==> !StartsHash(q[|p|]))
    && (forall p :: p in paths ==> '\n' !in p)
  }

  ghost predicate Within(view: View, paths: set<string>, hashed: set<string>)
  {
    forall k :: 0 <= k < |view| ==> view[k].path in paths && (view[k].contents.Some? ==> view[k].contents.value in hashed)
  }

  /** A hash can be read off the front of what follows a path. */
  lemma HashPrefix(sha: string -> string, a: Option<string>, b: Option<string>, x: string, y: string)
    requires IsHash(sha) && HashOf(sha, a) + x == HashOf(sha, b) + y
    ensures HashOf(sha, a) == HashOf(sha, b) && x == y
  {
    var h, k := HashOf(sha, a), HashOf(sha, b);
    assert (h + x)[0] == h[0] && (k + y)[0] == k[0];
    assert a.Some? ==> IsHexDigit(h[0]);
    assert b.Some? ==> IsHexDigit(k[0]);
    assert |h| == |k|;
    assert h == (h + x)[..|h|] && k == (k + y)[..|k|];
    assert x == (h + x)[|h|..] && y == (k + y)[|k|..];
  }

  lemma PrefixOf(p: string, q: string, x: string, y: string)
    requires |p| <= |q| && p + x == q + y
    ensures p <= q
  {
    assert p == (p + x)[..|p|] == (q + y)[..|p|] == q[..|p|];
  }

  lemma PathPrefix(p: string, q: string, x: string, y: string, paths: set<string>)
    requires GoodPaths(paths) && p in paths && q in paths && p + x == q + y
    requires x != "" && y != "" && StartsHash(x[0]) && StartsHash(y[0])
    ensures p == q && x == y
  {
    assert (p + x)[|p|] == x[0] && (q + y)[|q|] == y[0];
    if |p| <= |q| {
      PrefixOf(p, q, x, y);
    } else {
      PrefixOf(q, p, y, x);
    }
    assert x == (p + x)[|p|..] && y == (q + y)[|q|..];
  }

  lemma HashStarts(sha: string -> string, a: Option<string>, x: string)
    requires IsHash(sha)
    ensures HashOf(sha, a) + x != "" && StartsHash((HashOf(sha, a) + x)[0])
  {
    var h := HashOf(sha, a);
    assert a.Some? ==> IsDigest(h) && IsHexDigit(h[0]);
    assert (h + x)[0] == h[0];
  }

  /** The first entry and the rest can be told apart. */
  lemma EntryPrefix(sha: string -> string, a: Entry, b: Entry, x: string, y: string, hashed: set<string>)
    requires IsHash(sha) && CollisionFree(sha, hashed)
    requires (a.contents.Some? ==> a.contents.value in hashed) && (b.contents.Some? ==> b.contents.value in hashed)
    requires a.path == b.path && HashOf(sha, a.contents) + x == HashOf(sha, b.contents) + y
    ensures a == b && x == y
  {
    HashPrefix(sha, a.contents, b.contents, x, y);
    SameContents(sha, a.contents, b.contents, hashed);
  }

  lemma BodyCons(sha: string -> string, view: View)
    requires view != []
    ensures Body(sha, view) == view[0].path + (HashOf(sha, view[0].contents) + Body(sha, view[1..]))
  {
  }

  lemma SameCons(v: View, w: View)
    requires v != [] && w != [] && v[0] == w[0] && v[1..] == w[1..]
    ensures v == w
  {
    assert v == [v[0]] + v[1..] && w == [w[0]] + w[1..];
  }

  lemma FirstDecodes(sha: string -> string, a: Entry, b: Entry, x: string, y: string, paths: set<string>, hashed: set<string>)
    requires IsHash(sha) && CollisionFree(sha, hashed) && GoodPaths(paths) && a.path in paths && b.path in paths
    requires (a.contents.Some? ==> a.contents.value in hashed) && (b.contents.Some? ==> b.contents.value in hashed)
    requires a.path + (HashOf(sha, a.contents) + x) == b.path + (HashOf(sha, b.contents) + y)
    ensures a == b && x == y
  {
    HashStarts(sha, a.contents, x);
    HashStarts(sha, b.contents, y);
    PathPrefix(a.path, b.path, HashOf(sha, a.contents) + x, HashOf(sha, b.contents) + y, paths);
    EntryPrefix(sha, a, b, x, y, hashed);
  }

  lemma WithinParts(v: View, paths: set<string>, hashed: set<string>)
    requires v != [] && Within(v, paths, hashed)
    ensures v[0].path in paths && (v[0].contents.Some? ==> v[0].contents.value in hashed)
    ensures Within(v[1..], paths, hashed)
  {
  }

  /** Two lists of dependencies with the same text are the same, contents and all. */
  lemma {:induction false} BodyDecodes(sha: string -> string, v: View, w: View, paths: set<string>, hashed: set<string>)
    requires IsHash(sha) && CollisionFree(sha, hashed) && GoodPaths(paths)
    requires Within(v, paths, hashed) && Within(w, paths, hashed)
    requires Body(sha, v) == Body(sha, w)
    ensures v == w
    decreases |v|
  {
    BodyLength(sha, v);
    BodyLength(sha, w);
    if v != [] {
      BodyCons(sha, v);
      BodyCons(sha, w);
      WithinParts(v, paths, hashed);
      WithinParts(w, paths, hashed);
      FirstDecodes(sha, v[0], w[0], Body(sha, v[1..]), Body(sha, w[1..]), paths, hashed);
      BodyDecodes(sha, v[1..], w[1..], paths, hashed);
      SameCons(v, w);
    }
  }

  lemma BodyLength(sha: string -> string, view: View)
    requires IsHash(sha)
    ensures view == [] <==> Body(sha, view) == ""
  {
    if view != [] {
      var h := HashOf(sha, view[0].contents);
      assert view[0].contents.Some? ==> |h| == 64;
      assert |h| > 0;
    }
  }

  lemma SameContents(sha: string -> string, a: Option<string>, b: Option<string>, hashed: set<string>)
    requires IsHash(sha) && CollisionFree(sha, hashed) && HashOf(sha, a) == HashOf(sha, b)
    requires (a.Some? ==> a.value in hashed) && (b.Some? ==> b.value in hashed)
    ensures a == b
  {
    assert a.Some? ==> IsHexDigit(HashOf(sha, a)[0]);
    assert b.Some? ==> IsHexDigit(HashOf(sha, b)[0]);
    assert !IsHexDigit(MISSING[0]);
  }

  /** For a fixed list of paths, whatever they are, the text determines every contents. */
  lemma {:induction false} FixedPathsDecode(sha: string -> string, v: View, w: View, hashed: set<string>)
    requires IsHash(sha) && CollisionFree(sha, hashed)
    requires |v| == |w| && forall k :: 0 <= k < |v| ==> v[k].path == w[k].path
    requires forall k :: 0 <= k < |v| ==> v[k].contents.Some? ==> v[k].contents.value in hashed
    requires forall k :: 0 <= k < |w| ==> w[k].contents.Some? ==> w[k].contents.value in hashed
    requires Body(sha, v) == Body(sha, w)
    ensures v == w
    decreases |v|
  {
    if v != [] {
      BodyCons(sha, v);
      BodyCons(sha, w);
      var x, y := Body(sha, v[1..]), Body(sha, w[1..]);
      SamePrefix(v[0].path, HashOf(sha, v[0].contents) + x, HashOf(sha, w[0].contents) + y);
      EntryPrefix(sha, v[0], w[0], x, y, hashed);
      FixedPathsDecode(sha, v[1..], w[1..], hashed);
      SameCons(v, w);
    }
  }

  lemma SamePrefix(p: string, x: string, y: string)
    requires p + x == p + y
    ensures x == y
  {
    assert x == (p + x)[|p|..] && y == (p + y)[|p|..];
  }

  /** The salt is empty (no salt file) or ends with a line break, as the caller writes it. */
  predicate GoodSalt(salt: string)
  {
    salt == "" || salt[|salt| - 1] == '\n'
  }

  lemma {:induction false} BodyHasNoBreak(sha: string -> string, view: View, paths: set<string>, hashed: set<string>)
    requires IsHash(sha) && GoodPaths(paths) && Within(view, paths, hashed)
    ensures '\n' !in Body(sha, view)
  {
    if view != [] {
      var h := HashOf(sha, view[0].contents);
      assert '\n' !in h by {
        if view[0].contents.Some? {
          assert IsDigest(h);
        }
      }
      BodyHasNoBreak(sha, view[1..], paths, hashed);
    }
  }

  lemma TailHasNoBreak(s: string, x: string)
    requires '\n' !in x
    ensures forall k :: |s| <= k < |s| + |x| ==> (s + x)[k] != '\n'
  {
    forall k | |s| <= k < |s| + |x|
      ensures (s + x)[k] != '\n'
    {
      assert (s + x)[k] == x[k - |s|];
      assert x[k - |s|] in x;
    }
  }

  lemma SaltPrefix(s: string, t: string, x: string, y: string)
    requires GoodSalt(s) && GoodSalt(t) && '\n' !in x && '\n' !in y && s + x == t + y
    ensures s == t && x == y
  {
    TailHasNoBreak(s, x);
    TailHasNoBreak(t, y);
    assert s != "" ==> (s + x)[|s| - 1] == '\n';
    assert t != "" ==> (t + y)[|t| - 1] == '\n';
    assert s == (s + x)[..|s|] && t == (t + y)[..|t|];
    assert x == (s + x)[|s|..] && y == (t + y)[|t|..];
  }

  /** Salt, dependency list and contents can all be read back from what is hashed. */
  lemma MessageDecodes(sha: string -> string, s: string, v: View, t: string, w: View,
                       paths: set<string>, hashed: set<string>)
    requires IsHash(sha) && CollisionFree(sha, hashed) && GoodPaths(paths) && GoodSalt(s) && GoodSalt(t)
    requires Within(v, paths, hashed) && Within(w, paths, hashed)
    requires s + Body(sha, v) == t + Body(sha, w)
    ensures s == t && v == w
  {
    BodyHasNoBreak(sha, v, paths, hashed);
    BodyHasNoBreak(sha, w, paths, hashed);
    SaltPrefix(s, t, Body(sha, v), Body(sha, w));
    BodyDecodes(sha, v, w, paths, hashed);
  }

  // --- Exactly which heads can be confused ---------------------------------------------

  /** One character of a message as it is known before hashing. */
  datatype Cell = Exactly(c: char) | AnyHex

  predicate Fits(c: char, cell: Cell)
  {
    match cell
    case Exactly(d) => c == d
    case AnyHex => IsHexDigit(c)
  }

  predicate Compatible(x: Cell, y: Cell)
  {
    match (x, y)
    case (Exactly(c), _) => Fits(c, y)
    case (AnyHex, Exactly(d)) => IsHexDigit(d)
    case (AnyHex, AnyHex) => true
  }

  function Literal(s: string): seq<Cell>
  {
    seq(|s|, k requires 0 <= k < |s| => Exactly(s[k]))
  }

  /** What is known of a hash: that it is a digest, or MISSING. */
  function HashCells(present: bool): seq<Cell>
  {
    if present then seq(64, _ => AnyHex) else Literal(MISSING)
  }

  /** What the path list alone says about the body, given which files are there. */
  function Pattern(paths: seq<string>, present: seq<bool>): seq<Cell>
    requires |paths| == |present|
  {
    if paths == [] then []
    else Literal(paths[0]) + (HashCells(present[0]) + Pattern(paths[1..], present[1..]))
  }

  predicate Matches(text: string, cells: seq<Cell>)
  {
    |text| == |cells| && forall k :: 0 <= k < |text| ==> Fits(text[k], cells[k])
  }

  /** The two patterns agree wherever both say something. */
  predicate Unify(p: seq<Cell>, q: seq<Cell>)
  {
    |p| == |q| && forall k :: 0 <= k < |p| ==> Compatible(p[k], q[k])
  }

  /** Salt and path list of a message. */
  datatype Head = Head(salt: string, paths: seq<string>)

  function HeadPattern(h: Head, present: seq<bool>): seq<Cell>
    requires |h.paths| == |present|
  {
    Literal(h.salt) + Pattern(h.paths, present)
  }

  ghost predicate UnifyWith(a: Head, b: Head, here: seq<bool>, there: seq<bool>)
  {
    |a.paths| == |here| && |b.paths| == |there| && Unify(HeadPattern(a, here), HeadPattern(b, there))
  }

  /** For some choice of which files are there, the two heads lay their fixed characters compatibly. */
  ghost predicate Confusable(a: Head, b: Head)
  {
    exists here, there :: UnifyWith(a, b, here, there)
  }

  function Paths(view: View): seq<string>
  {
    seq(|view|, k requires 0 <= k < |view| => view[k].path)
  }

  function Present(view: View): seq<bool>
  {
    seq(|view|, k requires 0 <= k < |view| => view[k].contents.Some?)
  }

  lemma MatchesJoin(s: string, p: seq<Cell>, t: string, q: seq<Cell>)
    requires Matches(s, p) && Matches(t, q)
    ensures Matches(s + t, p + q)
  {
  }

  lemma MatchesSplit(t: string, p: seq<Cell>, q: seq<Cell>)
    requires Matches(t, p + q)
    ensures |p| <= |t| && Matches(t[..|p|], p) && Matches(t[|p|..], q)
  {
    forall k | 0 <= k < |q|
      ensures Fits(t[|p|..][k], q[k])
    {
      assert (p + q)[|p| + k] == q[k];
    }
    forall k | 0 <= k < |p|
      ensures Fits(t[k], p[k])
    {
      assert (p + q)[k] == p[k];
    }
  }

  lemma LiteralIs(t: string, s: string)
    ensures Matches(t, Literal(s)) <==> t == s
  {
    if Matches(t, Literal(s)) {
      assert forall k :: 0 <= k < |t| ==> Fits(t[k], Literal(s)[k]);
    }
  }

  lemma HashMatches(sha: string -> string, contents: Option<string>)
    requires IsHash(sha)
    ensures Matches(HashOf(sha, contents), HashCells(contents.Some?))
  {
    if contents.Some? {
      assert IsDigest(sha(contents.value));
    }
  }

  lemma {:induction false} BodyMatches(sha: string -> string, view: View)
    requires IsHash(sha)
    ensures Matches(Body(sha, view), Pattern(Paths(view), Present(view)))
  {
    if view != [] {
      var e, rest := view[0], view[1..];
      BodyMatches(sha, rest);
      HashMatches(sha, e.contents);
      LiteralIs(e.path, e.path);
      assert Paths(view)[1..] == Paths(rest) && Present(view)[1..] == Present(rest);
      MatchesJoin(HashOf(sha, e.contents), HashCells(e.contents.Some?), Body(sha, rest), Pattern(Paths(rest), Present(rest)));
      MatchesJoin(e.path, Literal(e.path), HashOf(sha, e.contents) + Body(sha, rest),
                  HashCells(e.contents.Some?) + Pattern(Paths(rest), Present(rest)));
      BodyCons(sha, view);
    }
  }

  /** A hash that maps every digest to itself. */
  function SelfHash(x: string): string
  {
    if IsDigest(x) then x else seq(64, _ => '0')
  }

  /** Contents whose hash, under that function, is the given text. */
  function ContentsFor(text: string, present: bool): Option<string>
  {
    if present then Some(text) else None
  }

  lemma HashIsText(text: string, present: bool)
    requires Matches(text, HashCells(present))
    ensures HashOf(SelfHash, ContentsFor(text, present)) == text
    ensures present ==> IsDigest(text)
  {
    if present {
      assert forall k :: 0 <= k < |text| ==> Fits(text[k], HashCells(true)[k]);
    } else {
      LiteralIs(text, MISSING);
    }
  }

  /** The contents found. */
  ghost function Contents(view: View): (r: set<string>)
    ensures forall k :: 0 <= k < |view| && view[k].contents.Some? ==> view[k].contents.value in r
  {
    if view == [] then {}
    else (if view[0].contents.Some? then {view[0].contents.value} else {}) + Contents(view[1..])
  }

  ghost predicate AreDigests(texts: set<string>)
  {
    forall x :: x in texts ==> IsDigest(x)
  }

  /** A text split into the first path, its hash and the rest of the pattern. */
  lemma PatternSplits(paths: seq<string>, present: seq<bool>, text: string) returns (h: string, rest: string)
    requires |paths| == |present| && paths != [] && Matches(text, Pattern(paths, present))
    ensures text == paths[0] + (h + rest) && Matches(h, HashCells(present[0])) && Matches(rest, Pattern(paths[1..], present[1..]))
  {
    var head, hash, more := Literal(paths[0]), HashCells(present[0]), Pattern(paths[1..], present[1..]);
    MatchesSplit(text, head, hash + more);
    LiteralIs(text[..|head|], paths[0]);
    var tail := text[|head|..];
    MatchesSplit(tail, hash, more);
    h, rest := tail[..|hash|], tail[|hash|..];
    assert text == text[..|head|] + tail && tail == h + rest;
  }

  lemma ViewCons(path: string, present: bool, h: string, more: View)
    requires Matches(h, HashCells(present)) && AreDigests(Contents(more))
    ensures var view := [Entry(path, ContentsFor(h, present))] + more;
      && Paths(view) == [path] + Paths(more) && Body(SelfHash, view) == path + (h + Body(SelfHash, more))
      && AreDigests(Contents(view))
  {
    var view := [Entry(path, ContentsFor(h, present))] + more;
    assert view[1..] == more;
    HashIsText(h, present);
    BodyCons(SelfHash, view);
  }

  /** Every text of the right pattern is the body of some view. */
  lemma {:induction false} PatternHasView(paths: seq<string>, present: seq<bool>, text: string) returns (view: View)
    requires |paths| == |present| && Matches(text, Pattern(paths, present))
    ensures Paths(view) == paths && Body(SelfHash, view) == text && AreDigests(Contents(view))
    decreases |paths|
  {
    if paths == [] {
      view := [];
    } else {
      var h, rest := PatternSplits(paths, present, text);
      var more := PatternHasView(paths[1..], present[1..], rest);
      view := [Entry(paths[0], ContentsFor(h, present[0]))] + more;
      ViewCons(paths[0], present[0], h, more);
      assert paths == [paths[0]] + paths[1..];
    }
  }

  lemma CommonText(p: seq<Cell>, q: seq<Cell>) returns (text: string)
    requires Unify(p, q)
    ensures Matches(text, p) && Matches(text, q)
  {
    text := seq(|p|, k requires 0 <= k < |p| =>
      if p[k].Exactly? then p[k].c else if q[k].Exactly? then q[k].c else '0');
    forall k | 0 <= k < |p|
      ensures Fits(text[k], p[k]) && Fits(text[k], q[k])
    {
      assert Compatible(p[k], q[k]);
    }
  }

  lemma CommonPattern(text: string, p: seq<Cell>, q: seq<Cell>)
    requires Matches(text, p) && Matches(text, q)
    ensures Unify(p, q)
  {
    forall k | 0 <= k < |p|
      ensures Compatible(p[k], q[k])
    {
      assert Fits(text[k], p[k]) && Fits(text[k], q[k]);
    }
  }

  lemma MessageMatches(sha: string -> string, salt: string, view: View)
    requires IsHash(sha)
    ensures Matches(salt + Body(sha, view), HeadPattern(Head(salt, Paths(view)), Present(view)))
  {
    BodyMatches(sha, view);
    LiteralIs(salt, salt);
    MatchesJoin(salt, Literal(salt), Body(sha, view), Pattern(Paths(view), Present(view)));
  }

  /** Two messages can be equal only if their heads can be confused ... */
  lemma EqualMessagesConfuse(sha: string -> string, s: string, v: View, t: string, w: View)
    requires IsHash(sha) && s + Body(sha, v) == t + Body(sha, w)
    ensures Confusable(Head(s, Paths(v)), Head(t, Paths(w)))
  {
    MessageMatches(sha, s, v);
    MessageMatches(sha, t, w);
    CommonPattern(s + Body(sha, v), HeadPattern(Head(s, Paths(v)), Present(v)), HeadPattern(Head(t, Paths(w)), Present(w)));
    assert UnifyWith(Head(s, Paths(v)), Head(t, Paths(w)), Present(v), Present(w));
  }

  lemma HeadHasView(h: Head, present: seq<bool>, text: string) returns (view: View)
    requires |h.paths| == |present| && Matches(text, HeadPattern(h, present))
    ensures Paths(view) == h.paths && h.salt + Body(SelfHash, view) == text && AreDigests(Contents(view))
  {
    var n := |Literal(h.salt)|;
    MatchesSplit(text, Literal(h.salt), Pattern(h.paths, present));
    LiteralIs(text[..n], h.salt);
    view := PatternHasView(h.paths, present, text[n..]);
    assert text == text[..n] + text[n..];
  }

  lemma SelfHashIsHash(texts: set<string>)
    requires AreDigests(texts)
    ensures IsHash(SelfHash) && CollisionFree(SelfHash, texts)
  {
  }

  /** Under `sha`, the views `v` and `w` have the heads `a` and `b` and one message. */
  ghost predicate Meet(a: Head, b: Head, sha: string -> string, v: View, w: View)
  {
    && IsHash(sha) && CollisionFree(sha, Contents(v) + Contents(w))
    && Paths(v) == a.paths && Paths(w) == b.paths && a.salt + Body(sha, v) == b.salt + Body(sha, w)
  }

  lemma ConfusedMessagesExist(a: Head, b: Head) returns (v: View, w: View)
    requires Confusable(a, b)
    ensures Meet(a, b, SelfHash, v, w)
  {
    var here, there :| UnifyWith(a, b, here, there);
    var text := CommonText(HeadPattern(a, here), HeadPattern(b, there));
    v := HeadHasView(a, here, text);
    w := HeadHasView(b, there, text);
    SelfHashIsHash(Contents(v) + Contents(w));
  }

  /** Heads are confusable if and only if some hash without collisions and some contents give them one message. */
  lemma ConfusableIff(a: Head, b: Head)
    ensures Confusable(a, b) <==> exists sha, v, w :: Meet(a, b, sha, v, w)
  {
    if Confusable(a, b) {
      var v, w := ConfusedMessagesExist(a, b);
    }
    forall sha, v, w | Meet(a, b, sha, v, w)
      ensures Confusable(a, b)
    {
      EqualMessagesConfuse(sha, a.salt, v, b.salt, w);
    }
  }

  ghost predicate AllIn(list: seq<string>, paths: set<string>)
  {
    forall k :: 0 <= k < |list| ==> list[k] in paths
  }

  /** Salts that end in a line break and good paths: a head is confusable with itself and nothing else. */
  lemma GoodHeadsApart(a: Head, b: Head, paths: set<string>)
    requires GoodPaths(paths) && GoodSalt(a.salt) && GoodSalt(b.salt) && AllIn(a.paths, paths) && AllIn(b.paths, paths)
    ensures Confusable(a, b) <==> a == b
  {
    if Confusable(a, b) {
      var v, w := ConfusedMessagesExist(a, b);
      WithinHead(v, a, paths, Contents(v) + Contents(w));
      WithinHead(w, b, paths, Contents(v) + Contents(w));
      MessageDecodes(SelfHash, a.salt, v, b.salt, w, paths, Contents(v) + Contents(w));
    } else if a == b {
      var v := seq(|a.paths|, k requires 0 <= k < |a.paths| => Entry(a.paths[k], None));
      assert Paths(v) == a.paths;
      SelfHashIsHash({});
      EqualMessagesConfuse(SelfHash, a.salt, v, a.salt, v);
    }
  }

  lemma WithinHead(v: View, a: Head, paths: set<string>, hashed: set<string>)
    requires Paths(v) == a.paths && AllIn(a.paths, paths) && Contents(v) <= hashed
    ensures Within(v, paths, hashed)
  {
    forall k | 0 <= k < |v|
      ensures v[k].path in paths
    {
      assert v[k].path == a.paths[k];
    }
  }

  /** A file missing and another present, or one file with a telling name: two path lists, one message. */
  lemma PathListsRunTogether(sha: string -> string, contents: Option<string>)
    ensures Body(sha, [Entry("aMISSINGb", contents)]) == Body(sha, [Entry("a", None), Entry("b", contents)])
  {
    var one, two := [Entry("aMISSINGb", contents)], [Entry("a", None), Entry("b", contents)];
    assert one[1..] == [] && two[1..] == [Entry("b", contents)] && two[1..][1..] == [];
    assert "aMISSINGb" == "a" + MISSING + "b";
  }

  /** A salt without a line break runs into the first path. */
  lemma SaltAndPathRunTogether(sha: string -> string, contents: Option<string>)
    ensures "checks" + Body(sha, [Entry("/a.c", contents)]) == "checks/" + Body(sha, [Entry("a.c", contents)])
  {
    assert [Entry("/a.c", contents)][1..] == [] && [Entry("a.c", contents)][1..] == [];
    assert "/a.c" == "/" + "a.c" && "checks/" == "checks" + "/";
    var h := HashOf(sha, contents);
    assert "checks" + ("/a.c" + h + "") == "checks/" + ("a.c" + h + "");
  }
}
