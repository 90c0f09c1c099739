/**
  The text form of the id databases, as scripts/_ids_parser.py documents it,
  and the round trip: printing a database and parsing it gives its rows back.
 */
module IdsText {
  import opened Outcomes
  import opened PyText
  import opened HexText
  import opened IdsParser

  datatype DeviceTree = DeviceTree(did: nat, name: string, subsystems: seq<Subsys>)
  datatype VendorTree = VendorTree(vid: nat, name: string, devices: seq<DeviceTree>)
  datatype ProgTree = ProgTree(prog: nat, name: string)
  datatype SubTree = SubTree(sub: nat, name: string, progs: seq<ProgTree>)
  datatype ClassTree = ClassTree(base: nat, name: string, subs: seq<SubTree>)
  datatype Database = Database(vendors: seq<VendorTree>, classes: seq<ClassTree>)

  // --- Printing ----------------------------------------------------------------------

  const LOWER: string := "0123456789abcdef"

  /** What lets a digit be told from whatever else starts or parts a line. */
  predicate IsDigit(c: char)
  {
    IsHex(c) && !IsSpace(c) && c != '#' && c != '\t' && c != 'C'
  }

  lemma LowerDigit(v: nat)
    requires v < 16
    ensures IsDigit(LOWER[v]) && DigitValue(LOWER[v]) == v
  {
  }

  /** `v` in `n` digits. */
  function LowerHex(v: nat, n: nat): (s: string)
    ensures |s| == n && forall k :: 0 <= k < n ==> IsDigit(s[k])
  {
    DigitsAreDigits(v, n);
    Hex(LOWER, v, n)
  }

  lemma {:induction false} DigitsAreDigits(v: nat, n: nat)
    ensures forall k :: 0 <= k < n ==> IsDigit(Hex(LOWER, v, n)[k])
  {
    if n > 0 {
      DigitsAreDigits(v / 16, n - 1);
      LowerDigit(v % 16);
    }
  }

  lemma {:induction false} HexReads(v: nat, n: nat)
    requires v < Power16(n)
    ensures HexValue(LowerHex(v, n)) == v
  {
    if n > 0 {
      HexReads(v / 16, n - 1);
      LowerDigit(v % 16);
      assert LowerHex(v, n)[..n - 1] == LowerHex(v / 16, n - 1);
    }
  }

  /** A number of `n` digits and a name, two spaces apart. */
  function Field(v: nat, n: nat, name: string): string
  {
    LowerHex(v, n) + ("  " + name)
  }

  function VendorLine(vid: nat, name: string): string
  {
    Field(vid, 4, name)
  }

  function DeviceLine(did: nat, name: string): string
  {
    "\t" + Field(did, 4, name)
  }

  function SubsysLine(s: Subsys): string
  {
    "\t\t" + (LowerHex(s.svid, 4) + (" " + Field(s.sdid, 4, s.name)))
  }

  function BaseLine(base: nat, name: string): string
  {
    "C " + Field(base, 2, name)
  }

  function SubLine(sub: nat, name: string): string
  {
    "\t" + Field(sub, 2, name)
  }

  function ProgLine(p: ProgTree): string
  {
    "\t\t" + Field(p.prog, 2, p.name)
  }

  // --- Lines read back ------------------------------------------------------------------

  /** A name on one line, without whitespace at its ends. */
  predicate IsName(name: string)
  {
    IsLine(name) && IsTrimmed(name)
  }

  lemma TrimSpace(name: string)
    requires IsTrimmed(name)
    ensures TrimRight(TrimLeft(" " + name)) == name
  {
    var padded := " " + name;
    assert padded[0] == ' ' && padded[1..] == name;
    assert TrimLeft(padded) == TrimLeft(name) == name;
  }

  lemma FieldReads(v: nat, n: nat, name: string)
    requires v < Power16(n) && IsName(name)
    ensures MatchNamed(Field(v, n, name), n) == Some(Named(v, name))
  {
    var s := Field(v, n, name);
    HexReads(v, n);
    assert s[..n] == LowerHex(v, n);
    assert s[n] == ' ';
    assert s[n + 1..] == " " + name;
    TrimSpace(name);
    assert forall k :: 0 <= k < n ==> s[k] == LowerHex(v, n)[k];
  }

  lemma VendorReads(vid: nat, name: string)
    requires vid < Power16(4) && IsName(name)
    ensures var line := VendorLine(vid, name);
      !Skipped(line) && MatchBase(line) == None && !Tabbed(line) && MatchVendor(line) == Some(Named(vid, name))
  {
    FieldReads(vid, 4, name);
    assert VendorLine(vid, name)[0] == LowerHex(vid, 4)[0];
  }

  lemma DeviceReads(did: nat, name: string)
    requires did < Power16(4) && IsName(name)
    ensures var line := DeviceLine(did, name);
      && !Skipped(line) && MatchBase(line) == None && Tabbed(line) && !TwiceTabbed(line)
      && MatchDevice(line) == Some(Named(did, name))
  {
    FieldReads(did, 4, name);
    var line := DeviceLine(did, name);
    assert line[1..] == Field(did, 4, name);
    assert line[1] == LowerHex(did, 4)[0];
  }

  lemma SubsysReads(s: Subsys)
    requires s.svid < Power16(4) && s.sdid < Power16(4) && IsName(s.name)
    ensures var line := SubsysLine(s);
      && !Skipped(line) && MatchBase(line) == None && TwiceTabbed(line)
      && MatchSubsys(line) == Some(NamedPair(s.svid, s.sdid, s.name))
  {
    var rest := Field(s.sdid, 4, s.name);
    var tail := LowerHex(s.svid, 4) + (" " + rest);
    assert SubsysLine(s)[2..] == tail;
    FieldReads(s.sdid, 4, s.name);
    HexReads(s.svid, 4);
    assert tail[..4] == LowerHex(s.svid, 4) && tail[4] == ' ' && tail[5..] == rest;
    assert forall k :: 0 <= k < 4 ==> tail[k] == LowerHex(s.svid, 4)[k];
    assert rest[0] == LowerHex(s.sdid, 4)[0];
    assert TrimLeft(rest) == rest;
  }

  lemma BaseReads(base: nat, name: string)
    requires base < Power16(2) && IsName(name)
    ensures var line := BaseLine(base, name);
      && !Skipped(line) && !Tabbed(line) && !TwiceTabbed(line)
      && MatchBase(line) == Some(Named(base, name))
  {
    var rest := Field(base, 2, name);
    FieldReads(base, 2, name);
    assert BaseLine(base, name)[2..] == rest;
    assert rest[0] == LowerHex(base, 2)[0];
    assert TrimLeft(rest) == rest;
  }

  lemma SubReads(sub: nat, name: string)
    requires sub < Power16(2) && IsName(name)
    ensures var line := SubLine(sub, name);
      !Skipped(line) && !TwiceTabbed(line) && MatchSub(line) == Some(Named(sub, name))
  {
    FieldReads(sub, 2, name);
    var line := SubLine(sub, name);
    assert line[1..] == Field(sub, 2, name);
    assert line[1] == LowerHex(sub, 2)[0];
  }

  lemma ProgReads(p: ProgTree)
    requires p.prog < Power16(2) && IsName(p.name)
    ensures !Skipped(ProgLine(p)) && MatchProg(ProgLine(p)) == Some(Named(p.prog, p.name))
  {
    FieldReads(p.prog, 2, p.name);
    assert ProgLine(p)[2..] == Field(p.prog, 2, p.name);
  }

  // --- Whole databases ------------------------------------------------------------------

  predicate GoodSubsys(s: Subsys)
  {
    s.svid < 0x10000 && s.sdid < 0x10000 && IsName(s.name)
  }

  predicate GoodDevice(d: DeviceTree)
  {
    d.did < 0x10000 && IsName(d.name) && forall k :: 0 <= k < |d.subsystems| ==> GoodSubsys(d.subsystems[k])
  }

  predicate GoodVendor(v: VendorTree)
  {
    v.vid < 0x10000 && IsName(v.name) && forall k :: 0 <= k < |v.devices| ==> GoodDevice(v.devices[k])
  }

  predicate GoodProg(p: ProgTree)
  {
    p.prog < 0x100 && IsName(p.name)
  }

  predicate GoodSub(s: SubTree)
  {
    s.sub < 0x100 && IsName(s.name) && forall k :: 0 <= k < |s.progs| ==> GoodProg(s.progs[k])
  }

  predicate GoodClass(c: ClassTree)
  {
    c.base < 0x100 && IsName(c.name) && forall k :: 0 <= k < |c.subs| ==> GoodSub(c.subs[k])
  }

  predicate GoodDatabase(d: Database)
  {
    && (forall k :: 0 <= k < |d.vendors| ==> GoodVendor(d.vendors[k]))
    && (forall k :: 0 <= k < |d.classes| ==> GoodClass(d.classes[k]))
  }

  // The lines of a database, and the rows they stand for.

  function SubsysLines(subs: seq<Subsys>): seq<string>
  {
    if subs == [] then [] else [SubsysLine(subs[0])] + SubsysLines(subs[1..])
  }

  function SubsysRows(vid: nat, did: nat, subs: seq<Subsys>): seq<Row>
  {
    if subs == [] then []
    else [SubsysRow(vid, did, subs[0].svid, subs[0].sdid, subs[0].name)] + SubsysRows(vid, did, subs[1..])
  }

  function DeviceLines(devices: seq<DeviceTree>): seq<string>
  {
    if devices == [] then []
    else [DeviceLine(devices[0].did, devices[0].name)] + SubsysLines(devices[0].subsystems) + DeviceLines(devices[1..])
  }

  /** The third tier is left out when the format has no subsystems. */
  function DeviceRows(vid: nat, devices: seq<DeviceTree>, subsystems: bool): seq<Row>
  {
    if devices == [] then []
    else
      var d := devices[0];
      [DeviceRow(vid, d.did, d.name)] + (if subsystems then SubsysRows(vid, d.did, d.subsystems) else [])
      + DeviceRows(vid, devices[1..], subsystems)
  }

  function VendorLines(vendors: seq<VendorTree>): seq<string>
  {
    if vendors == [] then []
    else [VendorLine(vendors[0].vid, vendors[0].name)] + DeviceLines(vendors[0].devices) + VendorLines(vendors[1..])
  }

  function VendorRows(vendors: seq<VendorTree>, subsystems: bool): seq<Row>
  {
    if vendors == [] then []
    else
      var v := vendors[0];
      [VendorRow(v.vid, v.name)] + DeviceRows(v.vid, v.devices, subsystems) + VendorRows(vendors[1..], subsystems)
  }

  function ProgLines(progs: seq<ProgTree>): seq<string>
  {
    if progs == [] then [] else [ProgLine(progs[0])] + ProgLines(progs[1..])
  }

  function ProgRows(base: nat, sub: nat, progs: seq<ProgTree>): seq<Row>
  {
    if progs == [] then [] else [ProgRow(base, sub, progs[0].prog, progs[0].name)] + ProgRows(base, sub, progs[1..])
  }

  function SubLines(subs: seq<SubTree>): seq<string>
  {
    if subs == [] then [] else [SubLine(subs[0].sub, subs[0].name)] + ProgLines(subs[0].progs) + SubLines(subs[1..])
  }

  function SubRows(base: nat, subs: seq<SubTree>): seq<Row>
  {
    if subs == [] then []
    else [SubRow(base, subs[0].sub, subs[0].name)] + ProgRows(base, subs[0].sub, subs[0].progs) + SubRows(base, subs[1..])
  }

  function ClassLines(classes: seq<ClassTree>): seq<string>
  {
    if classes == [] then []
    else [BaseLine(classes[0].base, classes[0].name)] + SubLines(classes[0].subs) + ClassLines(classes[1..])
  }

  function ClassRows(classes: seq<ClassTree>): seq<Row>
  {
    if classes == [] then []
    else [BaseRow(classes[0].base, classes[0].name)] + SubRows(classes[0].base, classes[0].subs) + ClassRows(classes[1..])
  }

  function Lines(d: Database): seq<string>
  {
    VendorLines(d.vendors) + ClassLines(d.classes)
  }

  function DatabaseRows(d: Database, subsystems: bool): seq<Row>
  {
    VendorRows(d.vendors, subsystems) + ClassRows(d.classes)
  }

  // --- The round trip -------------------------------------------------------------------

  /** `lines`, read in context `c`, give `rows` and leave the context `c'`. */
  ghost predicate Reads(lines: seq<string>, c: Context, subsystems: bool, rows: seq<Row>, c': Context)
  {
    Rows(lines, c, subsystems, None) == rows && AfterAll(lines, c) == c'
  }

  lemma ReadsOne(line: string, c: Context, subsystems: bool)
    ensures Reads([line], c, subsystems, Kept(RowOf(c, line, subsystems), None), After(c, line))
  {
    assert [line][1..] == [];
    assert Kept(RowOf(c, line, subsystems), None) + [] == Kept(RowOf(c, line, subsystems), None);
  }

  lemma ReadsThen(a: seq<string>, b: seq<string>, c: Context, subsystems: bool, r: seq<Row>, c1: Context, q: seq<Row>, c2: Context)
    requires Reads(a, c, subsystems, r, c1) && Reads(b, c1, subsystems, q, c2)
    ensures Reads(a + b, c, subsystems, r + q, c2)
  {
    RowsJoin(a, b, c, subsystems, None);
  }

  /** Inside device `did` of vendor `vid`. */
  function InDevice(vid: nat, did: nat): Context
  {
    Context(Some(vid), Some(did), false, None, None)
  }

  lemma {:induction false} SubsysLinesRead(subs: seq<Subsys>, vid: nat, did: nat, subsystems: bool)
    requires forall k :: 0 <= k < |subs| ==> GoodSubsys(subs[k])
    ensures Reads(SubsysLines(subs), InDevice(vid, did), subsystems,
                  if subsystems then SubsysRows(vid, did, subs) else [], InDevice(vid, did))
  {
    if subs != [] {
      var c := InDevice(vid, did);
      Powers();
      SubsysReads(subs[0]);
      ReadsOne(SubsysLine(subs[0]), c, subsystems);
      SubsysLinesRead(subs[1..], vid, did, subsystems);
      ReadsThen([SubsysLine(subs[0])], SubsysLines(subs[1..]), c, subsystems,
                Kept(RowOf(c, SubsysLine(subs[0]), subsystems), None), c,
                if subsystems then SubsysRows(vid, did, subs[1..]) else [], c);
    }
  }

  /** Somewhere under vendor `vid`. */
  ghost predicate UnderVendor(c: Context, vid: nat)
  {
    c.vendor == Some(vid) && !c.inClass && c.base == None && c.sub == None
  }

  /** In the vendor section. */
  ghost predicate BeforeClasses(c: Context)
  {
    !c.inClass && c.base == None && c.sub == None
  }

  lemma DeviceLineReads(d: DeviceTree, vid: nat, c: Context, subsystems: bool)
    requires GoodDevice(d) && UnderVendor(c, vid)
    ensures Reads([DeviceLine(d.did, d.name)], c, subsystems, [DeviceRow(vid, d.did, d.name)], InDevice(vid, d.did))
  {
    Powers();
    DeviceReads(d.did, d.name);
    ReadsOne(DeviceLine(d.did, d.name), c, subsystems);
  }

  lemma {:induction false} DeviceLinesRead(devices: seq<DeviceTree>, vid: nat, c: Context, subsystems: bool) returns (c': Context)
    requires (forall k :: 0 <= k < |devices| ==> GoodDevice(devices[k])) && UnderVendor(c, vid)
    ensures Reads(DeviceLines(devices), c, subsystems, DeviceRows(vid, devices, subsystems), c') && UnderVendor(c', vid)
  {
    c' := c;
    if devices != [] {
      var d := devices[0];
      var here := InDevice(vid, d.did);
      var subs := if subsystems then SubsysRows(vid, d.did, d.subsystems) else [];
      DeviceLineReads(d, vid, c, subsystems);
      SubsysLinesRead(d.subsystems, vid, d.did, subsystems);
      ReadsThen([DeviceLine(d.did, d.name)], SubsysLines(d.subsystems), c, subsystems,
                [DeviceRow(vid, d.did, d.name)], here, subs, here);
      c' := DeviceLinesRead(devices[1..], vid, here, subsystems);
      ReadsThen([DeviceLine(d.did, d.name)] + SubsysLines(d.subsystems), DeviceLines(devices[1..]), c, subsystems,
                [DeviceRow(vid, d.did, d.name)] + subs, here, DeviceRows(vid, devices[1..], subsystems), c');
    }
  }

  lemma VendorLineReads(v: VendorTree, c: Context, subsystems: bool) returns (c': Context)
    requires GoodVendor(v) && BeforeClasses(c)
    ensures Reads([VendorLine(v.vid, v.name)], c, subsystems, [VendorRow(v.vid, v.name)], c') && UnderVendor(c', v.vid)
  {
    Powers();
    VendorReads(v.vid, v.name);
    ReadsOne(VendorLine(v.vid, v.name), c, subsystems);
    c' := c.(vendor := Some(v.vid), device := None);
  }

  lemma {:induction false} VendorLinesRead(vendors: seq<VendorTree>, c: Context, subsystems: bool) returns (c': Context)
    requires (forall k :: 0 <= k < |vendors| ==> GoodVendor(vendors[k])) && BeforeClasses(c)
    ensures Reads(VendorLines(vendors), c, subsystems, VendorRows(vendors, subsystems), c') && BeforeClasses(c')
  {
    c' := c;
    if vendors != [] {
      var v := vendors[0];
      var head, devices := [VendorLine(v.vid, v.name)], DeviceLines(v.devices);
      var rows := DeviceRows(v.vid, v.devices, subsystems);
      var c1 := VendorLineReads(v, c, subsystems);
      var c2 := DeviceLinesRead(v.devices, v.vid, c1, subsystems);
      ReadsThen(head, devices, c, subsystems, [VendorRow(v.vid, v.name)], c1, rows, c2);
      c' := VendorLinesRead(vendors[1..], c2, subsystems);
      ReadsThen(head + devices, VendorLines(vendors[1..]), c, subsystems,
                [VendorRow(v.vid, v.name)] + rows, c2, VendorRows(vendors[1..], subsystems), c');
    }
  }

  /** Inside class `base`, and inside its subclass `sub` if there is one. */
  function InClass(base: nat, sub: Option<nat>): Context
  {
    Context(None, None, true, Some(base), sub)
  }

  lemma {:induction false} ProgLinesRead(progs: seq<ProgTree>, base: nat, sub: nat, subsystems: bool)
    requires forall k :: 0 <= k < |progs| ==> GoodProg(progs[k])
    ensures var c := InClass(base, Some(sub)); Reads(ProgLines(progs), c, subsystems, ProgRows(base, sub, progs), c)
  {
    if progs != [] {
      var c := InClass(base, Some(sub));
      Powers();
      ProgReads(progs[0]);
      ReadsOne(ProgLine(progs[0]), c, subsystems);
      ProgLinesRead(progs[1..], base, sub, subsystems);
      ReadsThen([ProgLine(progs[0])], ProgLines(progs[1..]), c, subsystems,
                [ProgRow(base, sub, progs[0].prog, progs[0].name)], c, ProgRows(base, sub, progs[1..]), c);
    }
  }

  lemma SubLineReads(s: SubTree, base: nat, sub: Option<nat>, subsystems: bool)
    requires GoodSub(s)
    ensures Reads([SubLine(s.sub, s.name)], InClass(base, sub), subsystems,
                  [SubRow(base, s.sub, s.name)], InClass(base, Some(s.sub)))
  {
    Powers();
    SubReads(s.sub, s.name);
    ReadsOne(SubLine(s.sub, s.name), InClass(base, sub), subsystems);
  }

  lemma {:induction false} SubLinesRead(subs: seq<SubTree>, base: nat, sub: Option<nat>, subsystems: bool) returns (sub': Option<nat>)
    requires forall k :: 0 <= k < |subs| ==> GoodSub(subs[k])
    ensures Reads(SubLines(subs), InClass(base, sub), subsystems, SubRows(base, subs), InClass(base, sub'))
    decreases subs
  {
    sub' := sub;
    if subs != [] {
      var s := subs[0];
      var c, here := InClass(base, sub), InClass(base, Some(s.sub));
      var head, progs := [SubLine(s.sub, s.name)], ProgLines(s.progs);
      var rows := ProgRows(base, s.sub, s.progs);
      SubLineReads(s, base, sub, subsystems);
      ProgLinesRead(s.progs, base, s.sub, subsystems);
      ReadsThen(head, progs, c, subsystems, [SubRow(base, s.sub, s.name)], here, rows, here);
      sub' := SubLinesRead(subs[1..], base, Some(s.sub), subsystems);
      ReadsThen(head + progs, SubLines(subs[1..]), c, subsystems,
                [SubRow(base, s.sub, s.name)] + rows, here, SubRows(base, subs[1..]), InClass(base, sub'));
    }
  }

  /** Where a class line can stand: in the vendor section or in another class. */
  ghost predicate BeforeClass(c: Context)
  {
    BeforeClasses(c) || exists base, sub :: c == InClass(base, sub)
  }

  lemma BaseLineReads(k: ClassTree, c: Context, subsystems: bool)
    requires GoodClass(k) && BeforeClass(c)
    ensures Reads([BaseLine(k.base, k.name)], c, subsystems, [BaseRow(k.base, k.name)], InClass(k.base, None))
  {
    Powers();
    BaseReads(k.base, k.name);
    ReadsOne(BaseLine(k.base, k.name), c, subsystems);
  }

  lemma {:induction false} ClassLinesRead(classes: seq<ClassTree>, c: Context, subsystems: bool) returns (c': Context)
    requires (forall k :: 0 <= k < |classes| ==> GoodClass(classes[k])) && BeforeClass(c)
    ensures Reads(ClassLines(classes), c, subsystems, ClassRows(classes), c')
    decreases classes
  {
    c' := c;
    if classes != [] {
      var k := classes[0];
      var head, subs := [BaseLine(k.base, k.name)], SubLines(k.subs);
      BaseLineReads(k, c, subsystems);
      var sub := SubLinesRead(k.subs, k.base, None, subsystems);
      var here := InClass(k.base, sub);
      ReadsThen(head, subs, c, subsystems, [BaseRow(k.base, k.name)], InClass(k.base, None), SubRows(k.base, k.subs), here);
      c' := ClassLinesRead(classes[1..], here, subsystems);
      ReadsThen(head + subs, ClassLines(classes[1..]), c, subsystems,
                [BaseRow(k.base, k.name)] + SubRows(k.base, k.subs), here, ClassRows(classes[1..]), c');
    }
  }

  /** Every line of a database comes back as the row it was printed from. */
  lemma LinesReadBack(d: Database, subsystems: bool)
    requires GoodDatabase(d)
    ensures Rows(Lines(d), START, subsystems, None) == DatabaseRows(d, subsystems)
  {
    var c := VendorLinesRead(d.vendors, START, subsystems);
    var c' := ClassLinesRead(d.classes, c, subsystems);
    ReadsThen(VendorLines(d.vendors), ClassLines(d.classes), START, subsystems,
              VendorRows(d.vendors, subsystems), c, ClassRows(d.classes), c');
  }

  // --- The text as a whole --------------------------------------------------------------

  ghost predicate AreLines(lines: seq<string>)
  {
    forall k :: 0 <= k < |lines| ==> IsLine(lines[k])
  }

  lemma FieldIsLine(v: nat, n: nat, name: string)
    requires IsName(name)
    ensures IsLine(Field(v, n, name)) && IsLine(LowerHex(v, n))
  {
  }

  lemma {:induction false} SubsysLinesAreLines(subs: seq<Subsys>)
    requires forall k :: 0 <= k < |subs| ==> GoodSubsys(subs[k])
    ensures AreLines(SubsysLines(subs))
  {
    if subs != [] {
      FieldIsLine(subs[0].sdid, 4, subs[0].name);
      FieldIsLine(subs[0].svid, 4, "");
      SubsysLinesAreLines(subs[1..]);
    }
  }

  lemma {:induction false} DeviceLinesAreLines(devices: seq<DeviceTree>)
    requires forall k :: 0 <= k < |devices| ==> GoodDevice(devices[k])
    ensures AreLines(DeviceLines(devices))
  {
    if devices != [] {
      FieldIsLine(devices[0].did, 4, devices[0].name);
      SubsysLinesAreLines(devices[0].subsystems);
      DeviceLinesAreLines(devices[1..]);
    }
  }

  lemma {:induction false} VendorLinesAreLines(vendors: seq<VendorTree>)
    requires forall k :: 0 <= k < |vendors| ==> GoodVendor(vendors[k])
    ensures AreLines(VendorLines(vendors))
  {
    if vendors != [] {
      FieldIsLine(vendors[0].vid, 4, vendors[0].name);
      DeviceLinesAreLines(vendors[0].devices);
      VendorLinesAreLines(vendors[1..]);
    }
  }

  lemma {:induction false} ProgLinesAreLines(progs: seq<ProgTree>)
    requires forall k :: 0 <= k < |progs| ==> GoodProg(progs[k])
    ensures AreLines(ProgLines(progs))
  {
    if progs != [] {
      FieldIsLine(progs[0].prog, 2, progs[0].name);
      ProgLinesAreLines(progs[1..]);
    }
  }

  lemma {:induction false} SubLinesAreLines(subs: seq<SubTree>)
    requires forall k :: 0 <= k < |subs| ==> GoodSub(subs[k])
    ensures AreLines(SubLines(subs))
  {
    if subs != [] {
      FieldIsLine(subs[0].sub, 2, subs[0].name);
      ProgLinesAreLines(subs[0].progs);
      SubLinesAreLines(subs[1..]);
    }
  }

  lemma {:induction false} ClassLinesAreLines(classes: seq<ClassTree>)
    requires forall k :: 0 <= k < |classes| ==> GoodClass(classes[k])
    ensures AreLines(ClassLines(classes))
  {
    if classes != [] {
      FieldIsLine(classes[0].base, 2, classes[0].name);
      SubLinesAreLines(classes[0].subs);
      ClassLinesAreLines(classes[1..]);
    }
  }

  function Print(d: Database): string
  {
    Unlines(Lines(d))
  }

  /** Parsing the text of a database gives exactly the rows it was printed from, in order. */
  lemma ParseInvertsPrint(d: Database, subsystems: bool)
    requires GoodDatabase(d)
    ensures Parse(Print(d), subsystems, None) == Collect(DatabaseRows(d, subsystems))
  {
    VendorLinesAreLines(d.vendors);
    ClassLinesAreLines(d.classes);
    SplitUnlines(Lines(d));
    LinesReadBack(d, subsystems);
  }
}
