/** Python's `str.splitlines` and whitespace, as the scripts use them. */
module PyText {
  /** Where Python's `str.splitlines` breaks a line. */
  predicate IsBreak(c: char)
  {
    c in {'\n', '\r', '\U{0B}', '\U{0C}', '\U{1C}', '\U{1D}', '\U{1E}', '\U{85}', '\U{2028}', '\U{2029}'}
  }

  /** Put `p`, which breaks no line, before the first of `lines`. */
  function Prepend(p: string, lines: seq<string>): seq<string>
  {
    if lines == [] then [p] else [p + lines[0]] + lines[1..]
  }

  /** `text.splitlines()`. */
  function SplitLines(text: string): (lines: seq<string>)
  {
    if text == [] then []
    else if text[0] == '\r' && |text| > 1 && text[1] == '\n' then [""] + SplitLines(text[2..])
    else if IsBreak(text[0]) then [""] + SplitLines(text[1..])
    else Prepend(text[..1], SplitLines(text[1..]))
  }

  lemma {:induction false} SplitPlain(p: string, b: string)
    requires p != [] && forall k :: 0 <= k < |p| ==> !IsBreak(p[k])
    ensures SplitLines(p + b) == Prepend(p, SplitLines(b))
  {
    var text := p + b;
    assert text[..1] == p[..1];
    assert text[1..] == p[1..] + b;
    var lines := SplitLines(b);
    if |p| > 1 {
      SplitPlain(p[1..], b);
      assert p[..1] + p[1..] == p;
      if lines != [] {
        assert p[..1] + (p[1..] + lines[0]) == p + lines[0];
      }
    } else {
      assert p[1..] + b == b && p[..1] == p;
    }
  }

  /** The lines, each ended by a line feed. */
  function Unlines(lines: seq<string>): string
  {
    if lines == [] then "" else lines[0] + "\n" + Unlines(lines[1..])
  }

  predicate IsLine(s: string)
  {
    forall k :: 0 <= k < |s| ==> !IsBreak(s[k])
  }

  /** Lines that hold no break come back from splitting. */
  lemma {:induction false} SplitUnlines(lines: seq<string>)
    requires forall k :: 0 <= k < |lines| ==> IsLine(lines[k])
    ensures SplitLines(Unlines(lines)) == lines
  {
    if lines != [] {
      SplitUnlines(lines[1..]);
      var p, rest := lines[0], Unlines(lines[1..]);
      var tail := "\n" + rest;
      assert tail[1..] == rest;
      assert SplitLines(tail) == [""] + lines[1..];
      assert p + "\n" + rest == p + tail;
      if p == [] {
        assert p + tail == tail;
      } else {
        SplitPlain(p, tail);
        assert p + "" == p;
      }
    }
  }

  /** What `\s` matches. */
  predicate IsSpace(c: char)
  {
    || '\t' <= c <= '\r' || '\U{1C}' <= c <= ' ' || c == '\U{85}' || c == '\U{A0}' || c == '\U{1680}'
    || '\U{2000}' <= c <= '\U{200A}' || c == '\U{2028}' || c == '\U{2029}' || c == '\U{202F}'
    || c == '\U{205F}' || c == '\U{3000}'
  }

  function TrimLeft(s: string): string
  {
    if s != [] && IsSpace(s[0]) then TrimLeft(s[1..]) else s
  }

  function TrimRight(s: string): string
  {
    if s != [] && IsSpace(s[|s| - 1]) then TrimRight(s[..|s| - 1]) else s
  }

  /** `s` neither starts nor ends with whitespace. */
  predicate IsTrimmed(s: string)
  {
    s == [] || (!IsSpace(s[0]) && !IsSpace(s[|s| - 1]))
  }

  /** Python's order on strings. */
  predicate StringLeq(a: string, b: string)
  {
    a == [] || (b != [] && (a[0] < b[0] || (a[0] == b[0] && StringLeq(a[1..], b[1..]))))
  }

  lemma {:induction false} StringLeqTotal(a: string, b: string)
    ensures StringLeq(a, b) || StringLeq(b, a)
  {
    if a != [] && b != [] && a[0] == b[0] {
      StringLeqTotal(a[1..], b[1..]);
    }
  }

  lemma {:induction false} StringLeqTransitive(a: string, b: string, c: string)
    requires StringLeq(a, b) && StringLeq(b, c)
    ensures StringLeq(a, c)
  {
    if a != [] && a[0] == b[0] == c[0] {
      StringLeqTransitive(a[1..], b[1..], c[1..]);
    }
  }

  function Insert(x: string, s: seq<string>): (r: seq<string>)
    ensures forall y :: y in r <==> y == x || y in s
  {
    if s == [] || StringLeq(x, s[0]) then [x] + s else [s[0]] + Insert(x, s[1..])
  }

  /** `sorted(s)`. */
  function Sorted(s: seq<string>): (r: seq<string>)
    ensures forall y :: y in r <==> y in s
  {
    if s == [] then [] else Insert(s[0], Sorted(s[1..]))
  }

  lemma {:induction false} InsertAdds(x: string, s: seq<string>)
    ensures multiset(Insert(x, s)) == multiset(s) + multiset{x}
  {
    if s != [] {
      assert s == [s[0]] + s[1..];
      InsertAdds(x, s[1..]);
    }
  }

  lemma {:induction false} SortedPermutes(s: seq<string>)
    ensures multiset(Sorted(s)) == multiset(s)
  {
    if s != [] {
      assert s == [s[0]] + s[1..];
      SortedPermutes(s[1..]);
      InsertAdds(s[0], Sorted(s[1..]));
    }
  }

  ghost predicate Ascends(s: seq<string>)
  {
    forall i, j :: 0 <= i < j < |s| ==> StringLeq(s[i], s[j])
  }

  lemma {:induction false} InsertAscends(x: string, s: seq<string>)
    requires Ascends(s)
    ensures Ascends(Insert(x, s))
  {
    if s != [] {
      var r := Insert(x, s);
      if StringLeq(x, s[0]) {
        forall j | 0 <= j < |s|
          ensures StringLeq(x, s[j])
        {
          if j > 0 {
            StringLeqTransitive(x, s[0], s[j]);
          }
        }
      } else {
        StringLeqTotal(x, s[0]);
        InsertAscends(x, s[1..]);
        forall j | 1 <= j < |r|
          ensures StringLeq(s[0], r[j])
        {
          assert r[j] == Insert(x, s[1..])[j - 1];
          assert r[j] in Insert(x, s[1..]);
        }
      }
    }
  }

  lemma {:induction false} SortedAscends(s: seq<string>)
    ensures Ascends(Sorted(s))
  {
    if s != [] {
      SortedAscends(s[1..]);
      InsertAscends(s[0], Sorted(s[1..]));
    }
  }

  lemma {:induction false} StringLeqAntisymmetric(a: string, b: string)
    requires StringLeq(a, b) && StringLeq(b, a)
    ensures a == b
  {
    if a != [] {
      StringLeqAntisymmetric(a[1..], b[1..]);
      assert a == [a[0]] + a[1..] && b == [b[0]] + b[1..];
    }
  }

  /** The first of an ascending list is least. */
  lemma FirstIsLeast(a: seq<string>, x: string)
    requires a != [] && Ascends(a) && x in a
    ensures StringLeq(a[0], x)
  {
    var k :| 0 <= k < |a| && a[k] == x;
    if k == 0 {
      StringLeqTotal(x, x);
    }
  }

  lemma TailCounts(a: seq<string>)
    requires a != []
    ensures a[0] in multiset(a) && multiset(a[1..]) == multiset(a) - multiset{a[0]}
  {
    assert a == [a[0]] + a[1..];
  }

  lemma SameFirst(a: seq<string>, b: seq<string>)
    requires a != [] && b != [] && Ascends(a) && Ascends(b) && a[0] in b && b[0] in a
    ensures a[0] == b[0]
  {
    FirstIsLeast(a, b[0]);
    FirstIsLeast(b, a[0]);
    StringLeqAntisymmetric(a[0], b[0]);
  }

  lemma TailAscends(a: seq<string>)
    requires a != [] && Ascends(a)
    ensures Ascends(a[1..])
  {
  }

  /** Ascending lists of the same strings are the same list. */
  lemma {:induction false} AscendingIsUnique(a: seq<string>, b: seq<string>)
    requires Ascends(a) && Ascends(b) && multiset(a) == multiset(b)
    ensures a == b
    decreases |a|
  {
    assert |a| == |multiset(a)| == |multiset(b)| == |b|;
    if a != [] {
      TailCounts(a);
      TailCounts(b);
      TailAscends(a);
      TailAscends(b);
      SameFirst(a, b);
      AscendingIsUnique(a[1..], b[1..]);
      assert a == [a[0]] + a[1..] && b == [b[0]] + b[1..];
    }
  }

  /** Sorting forgets the order of a list, and nothing else. */
  lemma SortedIff(a: seq<string>, b: seq<string>)
    ensures Sorted(a) == Sorted(b) <==> multiset(a) == multiset(b)
  {
    SortedPermutes(a);
    SortedPermutes(b);
    SortedAscends(a);
    SortedAscends(b);
    if multiset(a) == multiset(b) {
      AscendingIsUnique(Sorted(a), Sorted(b));
    }
  }
}
