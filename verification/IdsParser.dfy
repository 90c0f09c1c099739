/**
  The line-oriented parser of pci.ids and usb.ids, scripts/_ids_parser.py:
  vendors, their devices and the devices' subsystems, then device classes.
 */
module IdsParser {
  import opened Outcomes
  import opened PyText

  // --- Fields of a line --------------------------------------------------------------

  predicate IsHex(c: char)
  {
    '0' <= c <= '9' || 'a' <= c <= 'f' || 'A' <= c <= 'F'
  }

  function DigitValue(c: char): nat
    requires IsHex(c)
  {
    if c <= '9' then c as int - '0' as int
    else if c <= 'F' then c as int - 'A' as int + 10
    else c as int - 'a' as int + 10
  }

  /** `int(s, 16)`. */
  function HexValue(s: string): nat
    requires forall k :: 0 <= k < |s| ==> IsHex(s[k])
  {
    if s == [] then 0 else 16 * HexValue(s[..|s| - 1]) + DigitValue(s[|s| - 1])
  }

  datatype Named = Named(id: nat, name: string)

  /** `([0-9a-fA-F]{n})\s+(.*?)\s*$` at the start of `s`. */
  function MatchNamed(s: string, n: nat): Option<Named>
  {
    if n < |s| && (forall k :: 0 <= k < n ==> IsHex(s[k])) && IsSpace(s[n]) then
      Some(Named(HexValue(s[..n]), TrimRight(TrimLeft(s[n + 1..]))))
    else None
  }

  datatype NamedPair = NamedPair(first: nat, second: nat, name: string)

  /** Two numbers of four digits and a name. */
  function MatchPair(s: string): Option<NamedPair>
  {
    if 4 < |s| && (forall k :: 0 <= k < 4 ==> IsHex(s[k])) && IsSpace(s[4]) then
      match MatchNamed(TrimLeft(s[5..]), 4)
      case Some(m) => Some(NamedPair(HexValue(s[..4]), m.id, m.name))
      case None => None
    else None
  }

  predicate Tabbed(line: string)
  {
    line != [] && line[0] == '\t'
  }

  predicate TwiceTabbed(line: string)
  {
    |line| > 1 && line[0] == '\t' && line[1] == '\t'
  }

  function MatchVendor(line: string): Option<Named>
  {
    MatchNamed(line, 4)
  }

  function MatchDevice(line: string): Option<Named>
  {
    if Tabbed(line) then MatchNamed(line[1..], 4) else None
  }

  function MatchSubsys(line: string): Option<NamedPair>
  {
    if TwiceTabbed(line) then MatchPair(line[2..]) else None
  }

  function MatchBase(line: string): Option<Named>
  {
    if |line| > 1 && line[0] == 'C' && IsSpace(line[1]) then MatchNamed(TrimLeft(line[2..]), 2) else None
  }

  function MatchSub(line: string): Option<Named>
  {
    if Tabbed(line) then MatchNamed(line[1..], 2) else None
  }

  function MatchProg(line: string): Option<Named>
  {
    if TwiceTabbed(line) then MatchNamed(line[2..], 2) else None
  }

  // --- The state machine ---------------------------------------------------------------

  /** The running variables of the loop. */
  datatype Context = Context(vendor: Option<nat>, device: Option<nat>, inClass: bool, base: Option<nat>, sub: Option<nat>)

  const START := Context(None, None, false, None, None)

  /** One appended entry; a subsystem remembers the device it is filed under. */
  datatype Row =
    | VendorRow(vid: nat, name: string)
    | DeviceRow(vid: nat, did: nat, name: string)
    | SubsysRow(vid: nat, did: nat, svid: nat, sdid: nat, name: string)
    | BaseRow(base: nat, name: string)
    | SubRow(base: nat, sub: nat, name: string)
    | ProgRow(base: nat, sub: nat, prog: nat, name: string)

  predicate Skipped(line: string)
  {
    line == [] || line[0] == '#'
  }

  /** The context after a line of the class section. */
  function ClassContext(c: Context, line: string): Context
  {
    if MatchProg(line).Some? && c.base.Some? && c.sub.Some? then c
    else if MatchSub(line).Some? && c.base.Some? then c.(sub := Some(MatchSub(line).value.id))
    else if MatchBase(line).Some? then c.(base := Some(MatchBase(line).value.id), sub := None)
    else if !Tabbed(line) then c.(base := None, sub := None)
    else c
  }

  /** The context after a line. */
  function After(c: Context, line: string): Context
  {
    if Skipped(line) then c
    else if c.inClass then ClassContext(c, line)
    else if MatchBase(line).Some? then Context(None, None, true, Some(MatchBase(line).value.id), None)
    else if TwiceTabbed(line) then c
    else if Tabbed(line) then
      if MatchDevice(line).Some? && c.vendor.Some? then c.(device := Some(MatchDevice(line).value.id)) else c
    else if MatchVendor(line).Some? then c.(vendor := Some(MatchVendor(line).value.id), device := None)
    else c
  }

  function ClassRow(c: Context, line: string): Option<Row>
  {
    if MatchProg(line).Some? && c.base.Some? && c.sub.Some? then
      Some(ProgRow(c.base.value, c.sub.value, MatchProg(line).value.id, MatchProg(line).value.name))
    else if MatchSub(line).Some? && c.base.Some? then
      Some(SubRow(c.base.value, MatchSub(line).value.id, MatchSub(line).value.name))
    else if MatchBase(line).Some? then Some(BaseRow(MatchBase(line).value.id, MatchBase(line).value.name))
    else None
  }

  /** The entry a line adds, before any filter. */
  function RowOf(c: Context, line: string, subsystems: bool): Option<Row>
  {
    if Skipped(line) then None
    else if c.inClass then ClassRow(c, line)
    else if MatchBase(line).Some? then Some(BaseRow(MatchBase(line).value.id, MatchBase(line).value.name))
    else if TwiceTabbed(line) then
      if subsystems && MatchSubsys(line).Some? && c.vendor.Some? && c.device.Some? then
        var m := MatchSubsys(line).value;
        Some(SubsysRow(c.vendor.value, c.device.value, m.first, m.second, m.name))
      else None
    else if Tabbed(line) then
      if MatchDevice(line).Some? && c.vendor.Some? then
        Some(DeviceRow(c.vendor.value, MatchDevice(line).value.id, MatchDevice(line).value.name))
      else None
    else if MatchVendor(line).Some? then Some(VendorRow(MatchVendor(line).value.id, MatchVendor(line).value.name))
    else None
  }

  /** The vendor filter drops devices and subsystems of other vendors. */
  predicate Allowed(row: Row, allowed: Option<set<nat>>)
  {
    (row.DeviceRow? || row.SubsysRow?) && allowed.Some? ==> row.vid in allowed.value
  }

  function Kept(row: Option<Row>, allowed: Option<set<nat>>): seq<Row>
  {
    if row.Some? && Allowed(row.value, allowed) then [row.value] else []
  }

  function Rows(lines: seq<string>, c: Context, subsystems: bool, allowed: Option<set<nat>>): seq<Row>
  {
    if lines == [] then []
    else Kept(RowOf(c, lines[0], subsystems), allowed) + Rows(lines[1..], After(c, lines[0]), subsystems, allowed)
  }

  function AfterAll(lines: seq<string>, c: Context): Context
  {
    if lines == [] then c else AfterAll(lines[1..], After(c, lines[0]))
  }

  // --- The parsed lists -----------------------------------------------------------------

  datatype Subsys = Subsys(svid: nat, sdid: nat, name: string)

  datatype Parsed = Parsed(
    vendors: seq<(nat, string)>,
    devices: seq<(nat, nat, string)>,
    subsystems: seq<Subsys>,
    byDevice: map<(nat, nat), seq<Subsys>>,
    bases: seq<(nat, string)>,
    subs: seq<(nat, nat, string)>,
    progs: seq<(nat, nat, nat, string)>)

  const NOTHING := Parsed([], [], [], map[], [], [], [])

  function At(byDevice: map<(nat, nat), seq<Subsys>>, key: (nat, nat)): seq<Subsys>
  {
    if key in byDevice then byDevice[key] else []
  }

  /** Append one entry to the lists it belongs to. */
  function Add(p: Parsed, row: Row): Parsed
  {
    match row
    case VendorRow(vid, name) => p.(vendors := p.vendors + [(vid, name)])
    case DeviceRow(vid, did, name) => p.(devices := p.devices + [(vid, did, name)])
    case SubsysRow(vid, did, svid, sdid, name) =>
      var entry := Subsys(svid, sdid, name);
      p.(subsystems := p.subsystems + [entry],
         byDevice := p.byDevice[(vid, did) := At(p.byDevice, (vid, did)) + [entry]])
    case BaseRow(base, name) => p.(bases := p.bases + [(base, name)])
    case SubRow(base, sub, name) => p.(subs := p.subs + [(base, sub, name)])
    case ProgRow(base, sub, prog, name) => p.(progs := p.progs + [(base, sub, prog, name)])
  }

  /** The lists after appending `rows` in order. */
  function Collect(rows: seq<Row>): Parsed
  {
    if rows == [] then NOTHING else Add(Collect(rows[..|rows| - 1]), rows[|rows| - 1])
  }

  function Parse(text: string, subsystems: bool, allowed: Option<set<nat>>): Parsed
  {
    Collect(Rows(SplitLines(text), START, subsystems, allowed))
  }

  lemma {:induction false} RowsJoin(a: seq<string>, b: seq<string>, c: Context, subsystems: bool, allowed: Option<set<nat>>)
    ensures Rows(a + b, c, subsystems, allowed)
      == Rows(a, c, subsystems, allowed) + Rows(b, AfterAll(a, c), subsystems, allowed)
    ensures AfterAll(a + b, c) == AfterAll(b, AfterAll(a, c))
  {
    if a == [] {
      assert a + b == b;
    } else {
      assert (a + b)[1..] == a[1..] + b;
      RowsJoin(a[1..], b, After(c, a[0]), subsystems, allowed);
    }
  }

  lemma RowsSnoc(lines: seq<string>, i: nat, subsystems: bool, allowed: Option<set<nat>>)
    requires i < |lines|
    ensures var c := AfterAll(lines[..i], START);
      && AfterAll(lines[..i + 1], START) == After(c, lines[i])
      && Rows(lines[..i + 1], START, subsystems, allowed)
         == Rows(lines[..i], START, subsystems, allowed) + Kept(RowOf(c, lines[i], subsystems), allowed)
  {
    var c := AfterAll(lines[..i], START);
    assert lines[..i + 1] == lines[..i] + [lines[i]];
    RowsJoin(lines[..i], [lines[i]], START, subsystems, allowed);
    assert [lines[i]][1..] == [];
    assert Kept(RowOf(c, lines[i], subsystems), allowed) + [] == Kept(RowOf(c, lines[i], subsystems), allowed);
  }

  lemma CollectMore(rows: seq<Row>, row: Option<Row>, allowed: Option<set<nat>>)
    ensures Collect(rows + Kept(row, allowed)) ==
      if row.Some? && Allowed(row.value, allowed) then Add(Collect(rows), row.value) else Collect(rows)
  {
    if row.Some? && Allowed(row.value, allowed) {
      assert (rows + [row.value])[..|rows|] == rows;
    } else {
      assert rows + [] == rows;
    }
  }

  // --- The loop -------------------------------------------------------------------------

  /** `p` with the entry, if the filter lets it through. */
  function Added(p: Parsed, row: Option<Row>, allowed: Option<set<nat>>): Parsed
  {
    if row.Some? && Allowed(row.value, allowed) then Add(p, row.value) else p
  }

  /** A line of the class section. */
  method ClassLine(c: Context, line: string, p: Parsed) returns (c': Context, p': Parsed)
    requires !Skipped(line)
    ensures c' == ClassContext(c, line) && p' == Added(p, ClassRow(c, line), None)
  {
    c', p' := c, p;
    var m := MatchProg(line);
    if m.Some? && c.base.Some? && c.sub.Some? {
      p' := p.(progs := p.progs + [(c.base.value, c.sub.value, m.value.id, m.value.name)]);
      return;
    }
    m := MatchSub(line);
    if m.Some? && c.base.Some? {
      c' := c.(sub := Some(m.value.id));
      p' := p.(subs := p.subs + [(c.base.value, m.value.id, m.value.name)]);
      return;
    }
    m := MatchBase(line);
    if m.Some? {
      c' := c.(base := Some(m.value.id), sub := None);
      p' := p.(bases := p.bases + [(m.value.id, m.value.name)]);
      return;
    }
    if !Tabbed(line) {
      c' := c.(base := None, sub := None);
    }
  }

  /** A line of the vendor section that is not a class line. */
  method VendorLine(c: Context, line: string, subsystems: bool, allowed: Option<set<nat>>, p: Parsed)
    returns (c': Context, p': Parsed)
    requires !Skipped(line) && !c.inClass && MatchBase(line) == None
    ensures c' == After(c, line) && p' == Added(p, RowOf(c, line, subsystems), allowed)
  {
    c', p' := c, p;
    if TwiceTabbed(line) {
      if !subsystems {
        return;
      }
      var m := MatchSubsys(line);
      if m.Some? && c.vendor.Some? && c.device.Some? {
        if allowed == None || c.vendor.value in allowed.value {
          var entry := Subsys(m.value.first, m.value.second, m.value.name);
          var key := (c.vendor.value, c.device.value);
          p' := p.(subsystems := p.subsystems + [entry],
                   byDevice := p.byDevice[key := At(p.byDevice, key) + [entry]]);
        }
      }
      return;
    }
    if Tabbed(line) {
      var m := MatchDevice(line);
      if m.Some? && c.vendor.Some? {
        c' := c.(device := Some(m.value.id));
        if allowed == None || c.vendor.value in allowed.value {
          p' := p.(devices := p.devices + [(c.vendor.value, m.value.id, m.value.name)]);
        }
      }
      return;
    }
    var m := MatchVendor(line);
    if m.Some? {
      c' := c.(vendor := Some(m.value.id), device := None);
      p' := p.(vendors := p.vendors + [(m.value.id, m.value.name)]);
    }
  }

  /** One turn of the loop. */
  method LineTurn(c: Context, line: string, subsystems: bool, allowed: Option<set<nat>>, p: Parsed)
    returns (c': Context, p': Parsed)
    ensures c' == After(c, line) && p' == Added(p, RowOf(c, line, subsystems), allowed)
  {
    c', p' := c, p;
    if Skipped(line) {
      return;
    }
    if !c.inClass && MatchBase(line).Some? {
      var m := MatchBase(line).value;
      c' := Context(None, None, true, Some(m.id), None);
      p' := p.(bases := p.bases + [(m.id, m.name)]);
    } else if c.inClass {
      c', p' := ClassLine(c, line, p);
    } else {
      c', p' := VendorLine(c, line, subsystems, allowed, p);
    }
  }

  /** What is parsed and where the state machine is after the first `i` lines. */
  ghost predicate ParsedSoFar(lines: seq<string>, i: nat, subsystems: bool, allowed: Option<set<nat>>, c: Context, p: Parsed)
    requires i <= |lines|
  {
    c == AfterAll(lines[..i], START) && p == Collect(Rows(lines[..i], START, subsystems, allowed))
  }

  lemma NextLine(lines: seq<string>, i: nat, subsystems: bool, allowed: Option<set<nat>>, c: Context, p: Parsed)
    requires i < |lines| && ParsedSoFar(lines, i, subsystems, allowed, c, p)
    ensures ParsedSoFar(lines, i + 1, subsystems, allowed, After(c, lines[i]),
                        Added(p, RowOf(c, lines[i], subsystems), allowed))
  {
    RowsSnoc(lines, i, subsystems, allowed);
    CollectMore(Rows(lines[..i], START, subsystems, allowed), RowOf(c, lines[i], subsystems), allowed);
  }

  /** `parse_ids`. */
  method ParseIds(text: string, subsystems: bool, allowed: Option<set<nat>>) returns (p: Parsed)
    ensures p == Parse(text, subsystems, allowed)
  {
    p := NOTHING;
    var c := START;
    var lines := SplitLines(text);
    for i := 0 to |lines|
      invariant ParsedSoFar(lines, i, subsystems, allowed, c, p)
    {
      NextLine(lines, i, subsystems, allowed, c, p);
      c, p := LineTurn(c, lines[i], subsystems, allowed, p);
    }
    assert lines[..|lines|] == lines;
  }

  // --- The vendor filter ----------------------------------------------------------------

  /** The entries a filter keeps. */
  function Restrict(rows: seq<Row>, allowed: Option<set<nat>>): seq<Row>
  {
    if rows == [] then []
    else Restrict(rows[..|rows| - 1], allowed) + if Allowed(rows[|rows| - 1], allowed) then [rows[|rows| - 1]] else []
  }

  lemma {:induction false} RestrictJoin(a: seq<Row>, b: seq<Row>, allowed: Option<set<nat>>)
    ensures Restrict(a + b, allowed) == Restrict(a, allowed) + Restrict(b, allowed)
  {
    if b == [] {
      assert a + b == a;
    } else {
      var n := |b| - 1;
      assert (a + b)[..|a + b| - 1] == a + b[..n];
      RestrictJoin(a, b[..n], allowed);
    }
  }

  lemma {:induction false} RowsFilter(lines: seq<string>, c: Context, subsystems: bool, allowed: Option<set<nat>>)
    ensures Rows(lines, c, subsystems, allowed) == Restrict(Rows(lines, c, subsystems, None), allowed)
  {
    if lines != [] {
      var row, c' := RowOf(c, lines[0], subsystems), After(c, lines[0]);
      RowsFilter(lines[1..], c', subsystems, allowed);
      RestrictJoin(Kept(row, None), Rows(lines[1..], c', subsystems, None), allowed);
      assert Restrict(Kept(row, None), allowed) == Kept(row, allowed) by {
        if row.Some? {
          assert [row.value][..0] == [];
        }
      }
    }
  }

  function AllowedDevices(devices: seq<(nat, nat, string)>, allowed: set<nat>): seq<(nat, nat, string)>
  {
    if devices == [] then []
    else
      AllowedDevices(devices[..|devices| - 1], allowed)
      + if devices[|devices| - 1].0 in allowed then [devices[|devices| - 1]] else []
  }

  /** `q` is `p` with devices and their subsystems restricted to the allowed vendors. */
  ghost predicate IsRestriction(q: Parsed, p: Parsed, allowed: set<nat>)
  {
    && q.vendors == p.vendors && q.bases == p.bases && q.subs == p.subs && q.progs == p.progs
    && q.devices == AllowedDevices(p.devices, allowed)
    && (forall key :: key in q.byDevice <==> key in p.byDevice && key.0 in allowed)
    && (forall key :: key in q.byDevice ==> q.byDevice[key] == p.byDevice[key])
  }

  lemma AllowedDevicesSnoc(devices: seq<(nat, nat, string)>, d: (nat, nat, string), allowed: set<nat>)
    ensures AllowedDevices(devices + [d], allowed)
      == AllowedDevices(devices, allowed) + if d.0 in allowed then [d] else []
  {
    assert (devices + [d])[..|devices|] == devices;
  }

  lemma AddRestricted(q: Parsed, p: Parsed, row: Row, allowed: set<nat>)
    requires IsRestriction(q, p, allowed)
    ensures IsRestriction(Added(q, Some(row), Some(allowed)), Add(p, row), allowed)
  {
    if row.DeviceRow? {
      AllowedDevicesSnoc(p.devices, (row.vid, row.did, row.name), allowed);
    }
  }

  lemma {:induction false} CollectRestricted(rows: seq<Row>, allowed: set<nat>)
    ensures IsRestriction(Collect(Restrict(rows, Some(allowed))), Collect(rows), allowed)
  {
    if rows != [] {
      var front, row := rows[..|rows| - 1], rows[|rows| - 1];
      CollectRestricted(front, allowed);
      AddRestricted(Collect(Restrict(front, Some(allowed))), Collect(front), row, allowed);
      CollectMore(Restrict(front, Some(allowed)), Some(row), Some(allowed));
    }
  }

  /** Parsing with a filter is parsing without it and restricting the result. */
  lemma FilterCommutes(text: string, subsystems: bool, allowed: set<nat>)
    ensures IsRestriction(Parse(text, subsystems, Some(allowed)), Parse(text, subsystems, None), allowed)
  {
    var lines := SplitLines(text);
    RowsFilter(lines, START, subsystems, Some(allowed));
    CollectRestricted(Rows(lines, START, subsystems, None), allowed);
  }
}
