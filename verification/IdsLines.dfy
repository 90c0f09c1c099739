/**
  The lines scripts/_ids_parser.py accepts, beyond those of the canonical text:
  any whitespace between the fields, either case of digits, comments, and the
  sections of usb.ids that are passed over.
 */
module IdsLines {
  import opened Outcomes
  import opened PyText
  import opened IdsParser

  // --- Fields --------------------------------------------------------------------------

  /** The hexadecimal digits, in either case, and nothing else. */
  lemma HexDigitIs(c: char)
    ensures IsHex(c) <==> c in "0123456789abcdefABCDEF"
  {
    var all := "0123456789abcdefABCDEF";
    forall k | 0 <= k < |all|
      ensures IsHex(all[k])
    {
    }
    if IsHex(c) {
      var k := if c <= '9' then c as int - '0' as int else if c <= 'F' then c as int - 'A' as int + 16 else c as int - 'a' as int + 10;
      assert all[k] == c;
    }
  }

  lemma DigitValueIs(n: nat)
    requires n < 16
    ensures IsHex("0123456789abcdef"[n]) && DigitValue("0123456789abcdef"[n]) == n
    ensures IsHex("0123456789ABCDEF"[n]) && DigitValue("0123456789ABCDEF"[n]) == n
  {
  }

  ghost predicate AllSpace(s: string)
  {
    forall k :: 0 <= k < |s| ==> IsSpace(s[k])
  }

  lemma {:induction false} TrimLeftDrops(gap: string, rest: string)
    requires AllSpace(gap) && (rest == [] || !IsSpace(rest[0]))
    ensures TrimLeft(gap + rest) == rest
  {
    if gap == [] {
      assert gap + rest == rest;
    } else {
      assert (gap + rest)[1..] == gap[1..] + rest;
      TrimLeftDrops(gap[1..], rest);
    }
  }

  lemma {:induction false} TrimRightDrops(rest: string, tail: string)
    requires AllSpace(tail) && (rest == [] || !IsSpace(rest[|rest| - 1]))
    ensures TrimRight(rest + tail) == rest
  {
    if tail == [] {
      assert rest + tail == rest;
    } else {
      var n := |rest + tail|;
      assert (rest + tail)[..n - 1] == rest + tail[..|tail| - 1];
      TrimRightDrops(rest, tail[..|tail| - 1]);
    }
  }

  lemma {:induction false} TrimLeftSplits(s: string) returns (gap: string)
    ensures AllSpace(gap) && s == gap + TrimLeft(s) && (TrimLeft(s) == [] || !IsSpace(TrimLeft(s)[0]))
  {
    if s != [] && IsSpace(s[0]) {
      var more := TrimLeftSplits(s[1..]);
      gap := [s[0]] + more;
      assert s == [s[0]] + s[1..];
    } else {
      gap := [];
    }
  }

  lemma {:induction false} TrimRightSplits(s: string) returns (tail: string)
    ensures AllSpace(tail) && s == TrimRight(s) + tail && (TrimRight(s) == [] || !IsSpace(TrimRight(s)[|TrimRight(s)| - 1]))
    ensures TrimRight(s) <= s
  {
    if s != [] && IsSpace(s[|s| - 1]) {
      var more := TrimRightSplits(s[..|s| - 1]);
      tail := more + [s[|s| - 1]];
      assert s == s[..|s| - 1] + [s[|s| - 1]];
    } else {
      tail := [];
    }
  }

  ghost predicate AreHex(digits: string, n: nat)
  {
    |digits| == n && forall k :: 0 <= k < n ==> IsHex(digits[k])
  }

  /** A number, whitespace, a name, and whatever whitespace follows: the number and the name are read. */
  lemma NamedReads(digits: string, n: nat, gap: string, name: string, tail: string)
    requires AreHex(digits, n) && gap != [] && AllSpace(gap) && AllSpace(tail) && IsTrimmed(name)
    ensures MatchNamed(digits + (gap + (name + tail)), n) == Some(Named(HexValue(digits), name))
  {
    var s, rest := digits + (gap + (name + tail)), name + tail;
    assert s[..n] == digits && s[n] == gap[0] && s[n + 1..] == gap[1..] + rest;
    assert forall k :: 0 <= k < n ==> s[k] == digits[k];
    if name == [] {
      assert rest == tail && gap[1..] + rest == (gap[1..] + tail) + "";
      TrimLeftDrops(gap[1..] + tail, "");
    } else {
      assert rest[0] == name[0];
      TrimLeftDrops(gap[1..], rest);
      TrimRightDrops(name, tail);
    }
  }

  /** And nothing else is: whatever is read has that form. */
  lemma NamedIsRead(s: string, n: nat) returns (digits: string, gap: string, tail: string)
    requires MatchNamed(s, n).Some?
    ensures AreHex(digits, n) && gap != [] && AllSpace(gap) && AllSpace(tail)
    ensures var m := MatchNamed(s, n).value; s == digits + (gap + (m.name + tail)) && m.id == HexValue(digits) && IsTrimmed(m.name)
  {
    digits := s[..n];
    var rest := s[n + 1..];
    var more;
    more, tail := TrimSplits(rest);
    gap := [s[n]] + more;
    Regroup(s, n, more, TrimRight(TrimLeft(rest)) + tail);
  }

  lemma TrimSplits(rest: string) returns (gap: string, tail: string)
    ensures AllSpace(gap) && AllSpace(tail) && IsTrimmed(TrimRight(TrimLeft(rest)))
    ensures rest == gap + (TrimRight(TrimLeft(rest)) + tail)
  {
    gap := TrimLeftSplits(rest);
    tail := TrimRightSplits(TrimLeft(rest));
    var name := TrimRight(TrimLeft(rest));
    assert name != [] ==> name[0] == TrimLeft(rest)[0];
  }

  lemma Regroup(s: string, n: nat, more: string, rest: string)
    requires n < |s| && s[n + 1..] == more + rest
    ensures s == s[..n] + ([s[n]] + more + rest)
  {
    assert s == s[..n] + ([s[n]] + s[n + 1..]);
    assert [s[n]] + (more + rest) == [s[n]] + more + rest;
  }

  // --- Lines that add nothing ---------------------------------------------------------------

  /** Blank lines and comments make no difference anywhere. */
  lemma CommentsMakeNoDifference(a: seq<string>, line: string, b: seq<string>, c: Context, subsystems: bool, allowed: Option<set<nat>>)
    requires line == "" || line[0] == '#'
    ensures Rows(a + [line] + b, c, subsystems, allowed) == Rows(a + b, c, subsystems, allowed)
  {
    RowsJoin(a + [line], b, c, subsystems, allowed);
    RowsJoin(a, [line], c, subsystems, allowed);
    RowsJoin(a, b, c, subsystems, allowed);
    OneLine(line, AfterAll(a, c), subsystems, allowed);
    assert Rows(a, c, subsystems, allowed) + [] == Rows(a, c, subsystems, allowed);
  }

  lemma OneLine(line: string, c: Context, subsystems: bool, allowed: Option<set<nat>>)
    ensures Rows([line], c, subsystems, allowed) == Kept(RowOf(c, line, subsystems), allowed) && AfterAll([line], c) == After(c, line)
  {
    assert [line][1..] == [];
  }

  predicate IsClassRow(row: Row)
  {
    row.BaseRow? || row.SubRow? || row.ProgRow?
  }

  /** Behind the first class nothing is taken for a vendor, device or subsystem any more. */
  lemma {:induction false} ClassSectionIsFinal(lines: seq<string>, c: Context, subsystems: bool, allowed: Option<set<nat>>)
    requires c.inClass
    ensures AfterAll(lines, c).inClass
    ensures forall k :: 0 <= k < |Rows(lines, c, subsystems, allowed)| ==> IsClassRow(Rows(lines, c, subsystems, allowed)[k])
  {
    if lines != [] {
      ClassSectionIsFinal(lines[1..], After(c, lines[0]), subsystems, allowed);
    }
  }

  /** A heading of another taxonomy: it starts its line, and is not a `C` on its own. */
  predicate IsForeign(line: string)
  {
    line != "" && line[0] != '#' && line[0] != '\t' && (line[0] == 'C' ==> |line| == 1 || !IsSpace(line[1]))
  }

  /** Lines under a heading. */
  predicate IsUnder(line: string)
  {
    line == "" || line[0] == '#' || line[0] == '\t'
  }

  lemma {:induction false} NothingUnderNothing(lines: seq<string>, c: Context, subsystems: bool, allowed: Option<set<nat>>)
    requires c.inClass && c.base == None && forall k :: 0 <= k < |lines| ==> IsUnder(lines[k])
    ensures Rows(lines, c, subsystems, allowed) == [] && AfterAll(lines, c) == c
  {
    if lines != [] {
      assert IsUnder(lines[0]);
      NothingUnderNothing(lines[1..], c, subsystems, allowed);
    }
  }

  /** The sections usb.ids adds after its classes (AT, HID, R, PHY and so on) add nothing to the last class. */
  lemma ForeignSectionIsDropped(heading: string, lines: seq<string>, c: Context, subsystems: bool, allowed: Option<set<nat>>)
    requires c.inClass && IsForeign(heading) && forall k :: 0 <= k < |lines| ==> IsUnder(lines[k])
    ensures Rows([heading] + lines, c, subsystems, allowed) == []
    ensures AfterAll([heading] + lines, c) == c.(base := None, sub := None)
  {
    assert ([heading] + lines)[1..] == lines;
    NothingUnderNothing(lines, After(c, heading), subsystems, allowed);
  }

  /** A format without subsystems has none, whatever the text. */
  lemma {:induction false} NoSubsystems(lines: seq<string>, c: Context, allowed: Option<set<nat>>)
    ensures forall k :: 0 <= k < |Rows(lines, c, false, allowed)| ==> !Rows(lines, c, false, allowed)[k].SubsysRow?
  {
    if lines != [] {
      NoSubsystems(lines[1..], After(c, lines[0]), allowed);
    }
  }

  /** A line outside the class section that has no number of four digits in its place adds nothing and changes nothing. */
  lemma MalformedIsSkipped(line: string, c: Context, subsystems: bool)
    requires !c.inClass && line != "" && line[0] != 'C'
    requires if line[0] != '\t' then MatchNamed(line, 4) == None
             else |line| > 1 && line[1] != '\t' && MatchNamed(line[1..], 4) == None
    ensures RowOf(c, line, subsystems) == None && After(c, line) == c
  {
  }
}
