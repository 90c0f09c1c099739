/**
  The JSON5 emitters of scripts/pci-ids-to-json5.py as producers of structured
  documents: schema 1 lists the parsed rows, schema 2 nests devices under
  their vendor and subsystems under their device.
 */
module IdsEmit {
  import opened Outcomes
  import opened Counting
  import opened Sequences
  import opened IdsParser
  import opened IdsText
  import opened PyText

  type Device = (nat, nat, string)
  type ByDevice = map<(nat, nat), seq<Subsys>>

  // --- Quoting -----------------------------------------------------------------------

  /** `s.replace(c, "\\" + c)` for one character. */
  function EscapeAll(s: string, c: char): string
  {
    if s == [] then [] else (if s[0] == c then ['\\', c] else [s[0]]) + EscapeAll(s[1..], c)
  }

  /** `quote_json5`: backslashes first, then quotes. */
  function Quote(s: string): string
  {
    EscapeAll(EscapeAll(s, '\\'), '\'')
  }

  /**
    Reading a single-quoted JSON5 string (JSON5 section 5.1) after its opening
    quote, with the escapes of a backslash and a quote: its value and what
    follows the closing quote.
   */
  function ReadString(text: string): Option<(string, string)>
  {
    if text == [] then None
    else if text[0] == '\'' then Some(("", text[1..]))
    else if text[0] == '\\' then
      if |text| > 1 && (text[1] == '\\' || text[1] == '\'') then
        match ReadString(text[2..])
        case Some(r) => Some(([text[1]] + r.0, r.1))
        case None => None
      else None
    else if text[0] == '\n' || text[0] == '\r' then None
    else
      match ReadString(text[1..])
      case Some(r) => Some(([text[0]] + r.0, r.1))
      case None => None
  }

  lemma {:induction false} EscapeJoin(a: string, b: string, c: char)
    ensures EscapeAll(a + b, c) == EscapeAll(a, c) + EscapeAll(b, c)
  {
    if a == [] {
      assert a + b == b;
    } else {
      assert (a + b)[1..] == a[1..] + b;
      EscapeJoin(a[1..], b, c);
    }
  }

  /** The two passes together escape each backslash and each quote once. */
  lemma QuoteCons(s: string)
    requires s != []
    ensures Quote(s) == Escaped(s[0]) + Quote(s[1..])
  {
    var head := if s[0] == '\\' then ['\\', '\\'] else [s[0]];
    EscapeJoin(head, EscapeAll(s[1..], '\\'), '\'');
    assert head[1..] == (if s[0] == '\\' then ['\\'] else []);
    assert ['\\'][1..] == [];
    assert EscapeAll(head, '\'') == Escaped(s[0]);
  }

  function Escaped(c: char): string
  {
    if c == '\\' || c == '\'' then ['\\', c] else [c]
  }

  lemma ReadCons(c: char, tail: string, value: string, rest: string)
    requires c != '\n' && c != '\r' && ReadString(tail) == Some((value, rest))
    ensures ReadString(Escaped(c) + tail) == Some(([c] + value, rest))
  {
    var text := Escaped(c) + tail;
    assert text[|Escaped(c)|..] == tail;
  }

  /** Both replacements in one pass. */
  function QuoteOnce(s: string): string
  {
    if s == [] then [] else Escaped(s[0]) + QuoteOnce(s[1..])
  }

  lemma {:induction false} TwoPassesAreOne(s: string)
    ensures Quote(s) == QuoteOnce(s)
  {
    if s != [] {
      QuoteCons(s);
      TwoPassesAreOne(s[1..]);
    }
  }

  lemma {:induction false} QuoteOnceReadsBack(s: string, rest: string)
    requires forall k :: 0 <= k < |s| ==> s[k] != '\n' && s[k] != '\r'
    ensures ReadString(QuoteOnce(s) + ("'" + rest)) == Some((s, rest))
  {
    var end := "'" + rest;
    if s == [] {
      assert [] + end == end;
      assert end[1..] == rest;
    } else {
      QuoteOnceReadsBack(s[1..], rest);
      ReadCons(s[0], QuoteOnce(s[1..]) + end, s[1..], rest);
      Joined(Escaped(s[0]), QuoteOnce(s[1..]), end);
      assert [s[0]] + s[1..] == s;
    }
  }

  /** A quoted name reads back as itself, and ends where it was ended. */
  lemma QuoteReadsBack(s: string, rest: string)
    requires forall k :: 0 <= k < |s| ==> s[k] != '\n' && s[k] != '\r'
    ensures ReadString(Quote(s) + ("'" + rest)) == Some((s, rest))
  {
    TwoPassesAreOne(s);
    QuoteOnceReadsBack(s, rest);
  }

  // --- The hierarchical document ---------------------------------------------------------

  /** The devices of a vendor, in order. */
  function DevicesOf(devices: seq<Device>, vid: nat): seq<(nat, string)>
  {
    if devices == [] then []
    else
      var rest, last := DevicesOf(devices[..|devices| - 1], vid), devices[|devices| - 1];
      if last.0 == vid then rest + [(last.1, last.2)] else rest
  }

  function DeviceNodes(list: seq<(nat, string)>, vid: nat, byDevice: ByDevice): seq<DeviceTree>
  {
    seq(|list|, k requires 0 <= k < |list| => DeviceTree(list[k].0, list[k].1, At(byDevice, (vid, list[k].0))))
  }

  /** The vendors block of schema 2. */
  function Nodes(vendors: seq<(nat, string)>, devices: seq<Device>, byDevice: ByDevice): seq<VendorTree>
  {
    if vendors == [] then []
    else
      [VendorTree(vendors[0].0, vendors[0].1, DeviceNodes(DevicesOf(devices, vendors[0].0), vendors[0].0, byDevice))]
      + Nodes(vendors[1..], devices, byDevice)
  }

  /** The grouping loop: `devices_by_vid`. */
  method GroupDevices(devices: seq<Device>) returns (groups: map<nat, seq<(nat, string)>>)
    ensures forall vid :: (if vid in groups then groups[vid] else []) == DevicesOf(devices, vid)
  {
    groups := map[];
    for i := 0 to |devices|
      invariant forall vid :: (if vid in groups then groups[vid] else []) == DevicesOf(devices[..i], vid)
    {
      var (vid, did, name) := devices[i];
      assert devices[..i + 1][..i] == devices[..i];
      groups := groups[vid := (if vid in groups then groups[vid] else []) + [(did, name)]];
    }
    assert devices[..|devices|] == devices;
  }

  method EmitDevices(list: seq<(nat, string)>, vid: nat, byDevice: ByDevice) returns (out: seq<DeviceTree>)
    ensures out == DeviceNodes(list, vid, byDevice)
  {
    out := [];
    for i := 0 to |list|
      invariant out == DeviceNodes(list[..i], vid, byDevice)
    {
      out := out + [DeviceTree(list[i].0, list[i].1, At(byDevice, (vid, list[i].0)))];
    }
    assert list[..|list|] == list;
  }

  lemma NodesAt(p: Parsed, i: nat, out: seq<VendorTree>)
    requires i < |p.vendors|
    ensures var (vid, name) := p.vendors[i];
      out + Nodes(p.vendors[i..], p.devices, p.byDevice)
      == out + [VendorTree(vid, name, DeviceNodes(DevicesOf(p.devices, vid), vid, p.byDevice))]
         + Nodes(p.vendors[i + 1..], p.devices, p.byDevice)
  {
    assert p.vendors[i..][1..] == p.vendors[i + 1..];
  }

  /** `_emit_v2_hierarchical`. */
  method EmitHierarchical(p: Parsed) returns (out: seq<VendorTree>)
    ensures out == Nodes(p.vendors, p.devices, p.byDevice)
  {
    var groups := GroupDevices(p.devices);
    out := [];
    for i := 0 to |p.vendors|
      invariant out + Nodes(p.vendors[i..], p.devices, p.byDevice) == Nodes(p.vendors, p.devices, p.byDevice)
    {
      NodesAt(p, i, out);
      var (vid, name) := p.vendors[i];
      var nodes := EmitDevices(if vid in groups then groups[vid] else [], vid, p.byDevice);
      out := out + [VendorTree(vid, name, nodes)];
    }
  }

  // --- Flattening it again ---------------------------------------------------------------

  function Tagged(vid: nat, nodes: seq<DeviceTree>): seq<Device>
  {
    seq(|nodes|, k requires 0 <= k < |nodes| => (vid, nodes[k].did, nodes[k].name))
  }

  function FlatDevices(trees: seq<VendorTree>): seq<Device>
  {
    if trees == [] then [] else Tagged(trees[0].vid, trees[0].devices) + FlatDevices(trees[1..])
  }

  /** How often a vendor id is listed. */
  function Listed(vendors: seq<(nat, string)>, vid: nat): nat
  {
    if vendors == [] then 0 else (if vendors[0].0 == vid then 1 else 0) + Listed(vendors[1..], vid)
  }

  lemma NodesCons(vendors: seq<(nat, string)>, devices: seq<Device>, byDevice: ByDevice)
    requires vendors != []
    ensures var trees := Nodes(vendors, devices, byDevice);
      && trees != [] && trees[0].vid == vendors[0].0 && trees[1..] == Nodes(vendors[1..], devices, byDevice)
      && trees[0].devices == DeviceNodes(DevicesOf(devices, vendors[0].0), vendors[0].0, byDevice)
  {
  }

  lemma NodesSnoc(list: seq<(nat, string)>, last: (nat, string), vid: nat, byDevice: ByDevice)
    ensures DeviceNodes(list + [last], vid, byDevice)
      == DeviceNodes(list, vid, byDevice) + [DeviceTree(last.0, last.1, At(byDevice, (vid, last.0)))]
  {
  }

  lemma TaggedSnoc(vid: nat, nodes: seq<DeviceTree>, node: DeviceTree)
    ensures Tagged(vid, nodes + [node]) == Tagged(vid, nodes) + [(vid, node.did, node.name)]
  {
  }

  /** The devices emitted under one listing of a vendor are all the rows of that vendor. */
  lemma {:induction false} VendorKeepsDevices(devices: seq<Device>, vid: nat, byDevice: ByDevice, row: Device)
    ensures Count(Tagged(vid, DeviceNodes(DevicesOf(devices, vid), vid, byDevice)), row)
      == if row.0 == vid then Count(devices, row) else 0
  {
    if devices != [] {
      var front, last := devices[..|devices| - 1], devices[|devices| - 1];
      VendorKeepsDevices(front, vid, byDevice, row);
      if last.0 == vid {
        var list := DevicesOf(front, vid);
        var nodes := DeviceNodes(list, vid, byDevice);
        NodesSnoc(list, (last.1, last.2), vid, byDevice);
        TaggedSnoc(vid, nodes, DeviceTree(last.1, last.2, At(byDevice, (vid, last.1))));
        CountSnoc(Tagged(vid, nodes), last, row);
      }
    }
  }

  lemma FlatCons(trees: seq<VendorTree>, row: Device)
    requires trees != []
    ensures Count(FlatDevices(trees), row)
      == Count(Tagged(trees[0].vid, trees[0].devices), row) + Count(FlatDevices(trees[1..]), row)
  {
    CountConcat(Tagged(trees[0].vid, trees[0].devices), FlatDevices(trees[1..]), row);
  }

  lemma VendorAddsDevices(v: (nat, string), vs: seq<(nat, string)>, devices: seq<Device>, byDevice: ByDevice, row: Device)
    ensures Count(FlatDevices(Nodes([v] + vs, devices, byDevice)), row)
      == Count(FlatDevices(Nodes(vs, devices, byDevice)), row) + if v.0 == row.0 then Count(devices, row) else 0
  {
    var vendors := [v] + vs;
    assert vendors[0] == v && vendors[1..] == vs;
    NodesCons(vendors, devices, byDevice);
    FlatCons(Nodes(vendors, devices, byDevice), row);
    VendorKeepsDevices(devices, v.0, byDevice, row);
  }

  /** A device row comes out once for every listing of its vendor. */
  lemma DeviceCounts(vendors: seq<(nat, string)>, devices: seq<Device>, byDevice: ByDevice, row: Device)
    ensures Count(FlatDevices(Nodes(vendors, devices, byDevice)), row)
      == Times(Listed(vendors, row.0), Count(devices, row))
  {
    var tally := (vs: seq<(nat, string)>) => Count(FlatDevices(Nodes(vs, devices, byDevice)), row);
    forall v: (nat, string), vs: seq<(nat, string)>
      ensures tally([v] + vs) == tally(vs) + if v.0 == row.0 then Count(devices, row) else 0
    {
      VendorAddsDevices(v, vs, devices, byDevice, row);
    }
    TallyVendors(tally, Count(devices, row), row.0, vendors);
  }

  /** Every vendor that has devices is listed once. */
  ghost predicate VendorsOnce(vendors: seq<(nat, string)>, devices: seq<Device>)
  {
    forall d :: d in devices ==> Listed(vendors, d.0) == 1
  }

  /** Schema 2 holds the device rows of schema 1, each as often, if and only if that is so. */
  lemma DevicesConservedIff(vendors: seq<(nat, string)>, devices: seq<Device>, byDevice: ByDevice)
    ensures multiset(FlatDevices(Nodes(vendors, devices, byDevice))) == multiset(devices)
      <==> VendorsOnce(vendors, devices)
  {
    var flat := FlatDevices(Nodes(vendors, devices, byDevice));
    forall row: Device
      ensures Count(flat, row) == Times(Listed(vendors, row.0), Count(devices, row))
    {
      DeviceCounts(vendors, devices, byDevice, row);
    }
    ScaledOnceIff(flat, devices, (row: Device) => Listed(vendors, row.0));
  }

  // --- Subsystems -----------------------------------------------------------------------

  /** A subsystem with the device it belongs to. */
  type Owned = (nat, nat, Subsys)

  function Own(vid: nat, did: nat, subs: seq<Subsys>): seq<Owned>
  {
    seq(|subs|, k requires 0 <= k < |subs| => (vid, did, subs[k]))
  }

  function OwnedIn(vid: nat, nodes: seq<DeviceTree>): seq<Owned>
  {
    if nodes == [] then []
    else OwnedIn(vid, nodes[..|nodes| - 1]) + Own(vid, nodes[|nodes| - 1].did, nodes[|nodes| - 1].subsystems)
  }

  function FlatSubsystems(trees: seq<VendorTree>): seq<Owned>
  {
    if trees == [] then [] else OwnedIn(trees[0].vid, trees[0].devices) + FlatSubsystems(trees[1..])
  }

  lemma {:induction false} OwnCounts(vid: nat, did: nat, subs: seq<Subsys>, row: Owned)
    ensures Count(Own(vid, did, subs), row) == if row.0 == vid && row.1 == did then Count(subs, row.2) else 0
  {
    if subs != [] {
      var front, last := subs[..|subs| - 1], subs[|subs| - 1];
      OwnCounts(vid, did, front, row);
      assert Own(vid, did, subs) == Own(vid, did, front) + [(vid, did, last)];
      CountSnoc(Own(vid, did, front), (vid, did, last), row);
    }
  }

  /** How many device rows there are for a device. */
  function DeviceRowCount(devices: seq<Device>, vid: nat, did: nat): nat
  {
    if devices == [] then 0
    else
      var last := devices[|devices| - 1];
      DeviceRowCount(devices[..|devices| - 1], vid, did) + if last.0 == vid && last.1 == did then 1 else 0
  }

  lemma OwnedSnoc(vid: nat, nodes: seq<DeviceTree>, node: DeviceTree, row: Owned)
    ensures Count(OwnedIn(vid, nodes + [node]), row) == Count(OwnedIn(vid, nodes), row)
      + if row.0 == vid && row.1 == node.did then Count(node.subsystems, row.2) else 0
  {
    var all := nodes + [node];
    assert all[..|all| - 1] == nodes && all[|all| - 1] == node;
    CountConcat(OwnedIn(vid, nodes), Own(vid, node.did, node.subsystems), row);
    OwnCounts(vid, node.did, node.subsystems, row);
  }

  /** Under one listing of a vendor, a device's subsystems come out once for each row of the device. */
  lemma ListKeepsSubsystems(list: seq<(nat, string)>, vid: nat, byDevice: ByDevice, row: Owned)
    ensures Count(OwnedIn(vid, DeviceNodes(list, vid, byDevice)), row)
      == if row.0 == vid then Times(IdCount(list, row.1), Count(At(byDevice, (vid, row.1)), row.2)) else 0
  {
    var tally := (l: seq<(nat, string)>) => Count(OwnedIn(vid, DeviceNodes(l, vid, byDevice)), row);
    var c := if row.0 == vid then Count(At(byDevice, (vid, row.1)), row.2) else 0;
    NoDeviceKeeps(vid, byDevice, row);
    forall l: seq<(nat, string)>, x: (nat, string)
      ensures tally(l + [x]) == tally(l) + if x.0 == row.1 then c else 0
    {
      NextDeviceKeeps(l, x, vid, byDevice, row);
    }
    TallyList(tally, c, row.1, list);
    TimesAtLeast(IdCount(list, row.1), c);
  }

  /** A tally that grows by `c` with every entry for `did` comes to `c` times their number. */
  lemma {:induction false} TallyList(tally: seq<(nat, string)> -> nat, c: nat, did: nat, list: seq<(nat, string)>)
    requires tally([]) == 0
    requires forall l, x :: tally(l + [x]) == tally(l) + if x.0 == did then c else 0
    ensures tally(list) == Times(IdCount(list, did), c)
  {
    if list != [] {
      TallyList(tally, c, did, list[..|list| - 1]);
      Snoc(list);
    }
  }

  /** The same for vendors, from the front. */
  lemma {:induction false} TallyVendors(tally: seq<(nat, string)> -> nat, c: nat, vid: nat, vendors: seq<(nat, string)>)
    requires tally([]) == 0
    requires forall v, vs :: tally([v] + vs) == tally(vs) + if v.0 == vid then c else 0
    ensures tally(vendors) == Times(Listed(vendors, vid), c)
  {
    if vendors != [] {
      TallyVendors(tally, c, vid, vendors[1..]);
      assert vendors == [vendors[0]] + vendors[1..];
    }
  }

  lemma NoDeviceKeeps(vid: nat, byDevice: ByDevice, row: Owned)
    ensures Count(OwnedIn(vid, DeviceNodes([], vid, byDevice)), row) == 0
  {
    assert DeviceNodes([], vid, byDevice) == [];
  }

  lemma Snoc(list: seq<(nat, string)>)
    requires list != []
    ensures list == list[..|list| - 1] + [list[|list| - 1]]
  {
  }

  /** How often a device id is in a vendor's list. */
  function IdCount(list: seq<(nat, string)>, did: nat): nat
  {
    if list == [] then 0 else IdCount(list[..|list| - 1], did) + if list[|list| - 1].0 == did then 1 else 0
  }

  lemma IdCountSnoc(list: seq<(nat, string)>, last: (nat, string), did: nat)
    ensures IdCount(list + [last], did) == IdCount(list, did) + if last.0 == did then 1 else 0
  {
    assert (list + [last])[..|list|] == list;
  }

  lemma {:induction false} IdCountIsRowCount(devices: seq<Device>, vid: nat, did: nat)
    ensures IdCount(DevicesOf(devices, vid), did) == DeviceRowCount(devices, vid, did)
  {
    if devices != [] {
      var front, last := devices[..|devices| - 1], devices[|devices| - 1];
      IdCountIsRowCount(front, vid, did);
      IdCountSnoc(DevicesOf(front, vid), (last.1, last.2), did);
    }
  }

  lemma VendorKeepsSubsystems(devices: seq<Device>, vid: nat, byDevice: ByDevice, row: Owned)
    ensures Count(OwnedIn(vid, DeviceNodes(DevicesOf(devices, vid), vid, byDevice)), row)
      == if row.0 == vid then Times(DeviceRowCount(devices, vid, row.1), Count(At(byDevice, (vid, row.1)), row.2)) else 0
  {
    ListKeepsSubsystems(DevicesOf(devices, vid), vid, byDevice, row);
    IdCountIsRowCount(devices, vid, row.1);
  }

  /** One device more in a vendor's list. */
  lemma NextDeviceKeeps(list: seq<(nat, string)>, last: (nat, string), vid: nat, byDevice: ByDevice, row: Owned)
    ensures Count(OwnedIn(vid, DeviceNodes(list + [last], vid, byDevice)), row)
      == Count(OwnedIn(vid, DeviceNodes(list, vid, byDevice)), row)
         + if row.0 == vid && row.1 == last.0 then Count(At(byDevice, (vid, row.1)), row.2) else 0
  {
    NodesSnoc(list, last, vid, byDevice);
    OwnedSnoc(vid, DeviceNodes(list, vid, byDevice), DeviceTree(last.0, last.1, At(byDevice, (vid, last.0))), row);
  }

  lemma FlatSubsystemsCons(trees: seq<VendorTree>, row: Owned)
    requires trees != []
    ensures Count(FlatSubsystems(trees), row)
      == Count(OwnedIn(trees[0].vid, trees[0].devices), row) + Count(FlatSubsystems(trees[1..]), row)
  {
    CountConcat(OwnedIn(trees[0].vid, trees[0].devices), FlatSubsystems(trees[1..]), row);
  }

  lemma VendorAddsSubsystems(v: (nat, string), vs: seq<(nat, string)>, devices: seq<Device>, byDevice: ByDevice, row: Owned)
    ensures Count(FlatSubsystems(Nodes([v] + vs, devices, byDevice)), row)
      == Count(FlatSubsystems(Nodes(vs, devices, byDevice)), row)
         + if v.0 == row.0 then Times(DeviceRowCount(devices, row.0, row.1), Count(At(byDevice, (row.0, row.1)), row.2)) else 0
  {
    var vendors := [v] + vs;
    assert vendors[0] == v && vendors[1..] == vs;
    NodesCons(vendors, devices, byDevice);
    FlatSubsystemsCons(Nodes(vendors, devices, byDevice), row);
    VendorKeepsSubsystems(devices, v.0, byDevice, row);
  }

  /** A device's subsystems come out once for each listing of its vendor and each row of the device. */
  lemma SubsystemCounts(vendors: seq<(nat, string)>, devices: seq<Device>, byDevice: ByDevice, row: Owned)
    ensures Count(FlatSubsystems(Nodes(vendors, devices, byDevice)), row)
      == Times(Listed(vendors, row.0), Times(DeviceRowCount(devices, row.0, row.1), Count(At(byDevice, (row.0, row.1)), row.2)))
  {
    var c := Times(DeviceRowCount(devices, row.0, row.1), Count(At(byDevice, (row.0, row.1)), row.2));
    var tally := (vs: seq<(nat, string)>) => Count(FlatSubsystems(Nodes(vs, devices, byDevice)), row);
    forall v: (nat, string), vs: seq<(nat, string)>
      ensures tally([v] + vs) == tally(vs) + if v.0 == row.0 then c else 0
    {
      VendorAddsSubsystems(v, vs, devices, byDevice, row);
    }
    TallyVendors(tally, c, row.0, vendors);
  }

  // --- What the parser guarantees --------------------------------------------------------

  /** The subsystems in the order they were parsed, each with its device. */
  function OwnedRows(rows: seq<Row>): seq<Owned>
  {
    if rows == [] then []
    else
      var rest, last := OwnedRows(rows[..|rows| - 1]), rows[|rows| - 1];
      if last.SubsysRow? then rest + [(last.vid, last.did, Subsys(last.svid, last.sdid, last.name))] else rest
  }

  lemma AddFiles(p: Parsed, r: Row, row: Owned)
    ensures Count(At(Add(p, r).byDevice, (row.0, row.1)), row.2) == Count(At(p.byDevice, (row.0, row.1)), row.2)
      + if r.SubsysRow? && (r.vid, r.did, Subsys(r.svid, r.sdid, r.name)) == row then 1 else 0
  {
    if r.SubsysRow? && r.vid == row.0 && r.did == row.1 {
      CountSnoc(At(p.byDevice, (row.0, row.1)), Subsys(r.svid, r.sdid, r.name), row.2);
    }
  }

  /** The dictionary files every subsystem under its own device, and no other. */
  lemma {:induction false} DictionaryCounts(rows: seq<Row>, row: Owned)
    ensures Count(At(Collect(rows).byDevice, (row.0, row.1)), row.2) == Count(OwnedRows(rows), row)
  {
    if rows != [] {
      var front, last := rows[..|rows| - 1], rows[|rows| - 1];
      DictionaryCounts(front, row);
      AddFiles(Collect(front), last, row);
      if last.SubsysRow? {
        CountSnoc(OwnedRows(front), (last.vid, last.did, Subsys(last.svid, last.sdid, last.name)), row);
      }
    }
  }

  /** The flat list of subsystems is the same list without the devices. */
  lemma {:induction false} FlatListIsOwned(rows: seq<Row>)
    ensures |Collect(rows).subsystems| == |OwnedRows(rows)|
    ensures forall k :: 0 <= k < |OwnedRows(rows)| ==> Collect(rows).subsystems[k] == OwnedRows(rows)[k].2
  {
    if rows != [] {
      FlatListIsOwned(rows[..|rows| - 1]);
    }
  }

  /** Schema 2 holds the subsystems of schema 1, each under its own device and as often, if and only if
      every device that has subsystems has one row and its vendor is listed once. */
  lemma SubsystemsConservedIff(rows: seq<Row>)
    ensures var p := Collect(rows);
      multiset(FlatSubsystems(Nodes(p.vendors, p.devices, p.byDevice))) == multiset(OwnedRows(rows))
      <==> forall r :: r in OwnedRows(rows) ==> Listed(p.vendors, r.0) == 1 && DeviceRowCount(p.devices, r.0, r.1) == 1
  {
    var p := Collect(rows);
    var flat := FlatSubsystems(Nodes(p.vendors, p.devices, p.byDevice));
    forall row: Owned
      ensures Count(flat, row) ==
        Times(Listed(p.vendors, row.0), Times(DeviceRowCount(p.devices, row.0, row.1), Count(OwnedRows(rows), row)))
    {
      SubsystemCounts(p.vendors, p.devices, p.byDevice, row);
      DictionaryCounts(rows, row);
    }
    ScaledIff(flat, OwnedRows(rows), (row: Owned) => Listed(p.vendors, row.0),
              (row: Owned) => DeviceRowCount(p.devices, row.0, row.1));
  }

  // --- Every row has its parent -----------------------------------------------------------

  lemma {:induction false} ListedSnoc(vendors: seq<(nat, string)>, last: (nat, string), vid: nat)
    ensures Listed(vendors + [last], vid) == Listed(vendors, vid) + if last.0 == vid then 1 else 0
  {
    if vendors == [] {
      assert (vendors + [last])[1..] == [];
    } else {
      assert (vendors + [last])[1..] == vendors[1..] + [last];
      ListedSnoc(vendors[1..], last, vid);
    }
  }

  lemma RowCountSnoc(devices: seq<Device>, last: Device, vid: nat, did: nat)
    ensures DeviceRowCount(devices + [last], vid, did)
      == DeviceRowCount(devices, vid, did) + if last.0 == vid && last.1 == did then 1 else 0
  {
    assert (devices + [last])[..|devices|] == devices;
  }

  /** The vendor of the context is listed; so is its device, unless the filter drops it. */
  ghost predicate ContextRooted(c: Context, p: Parsed, allowed: Option<set<nat>>)
  {
    && (c.vendor.Some? ==> Listed(p.vendors, c.vendor.value) >= 1)
    && (c.device.Some? ==> c.vendor.Some?)
    && (c.device.Some? && (allowed.Some? ==> c.vendor.value in allowed.value) ==>
          DeviceRowCount(p.devices, c.vendor.value, c.device.value) >= 1)
  }

  ghost predicate DevicesRooted(p: Parsed)
  {
    forall d :: d in p.devices ==> Listed(p.vendors, d.0) >= 1
  }

  ghost predicate SubsystemsRooted(owned: seq<Owned>, p: Parsed)
  {
    forall r :: r in owned ==> Listed(p.vendors, r.0) >= 1 && DeviceRowCount(p.devices, r.0, r.1) >= 1
  }

  /** Appending a row takes nothing away. */
  lemma AddGrows(p: Parsed, row: Row, vid: nat, did: nat)
    ensures Listed(Add(p, row).vendors, vid) >= Listed(p.vendors, vid)
    ensures DeviceRowCount(Add(p, row).devices, vid, did) >= DeviceRowCount(p.devices, vid, did)
    ensures row.VendorRow? && row.vid == vid ==> Listed(Add(p, row).vendors, vid) >= 1
    ensures row.DeviceRow? && row.vid == vid && row.did == did ==> DeviceRowCount(Add(p, row).devices, vid, did) >= 1
  {
    if row.VendorRow? {
      ListedSnoc(p.vendors, (row.vid, row.name), vid);
    } else if row.DeviceRow? {
      RowCountSnoc(p.devices, (row.vid, row.did, row.name), vid, did);
    }
  }

  /** How a line may move the context: not at all, out of the vendors, to the vendor or device of its row. */
  ghost predicate Moves(c: Context, row: Option<Row>, c': Context)
  {
    || (c'.vendor == c.vendor && c'.device == c.device)
    || (c'.vendor == None && c'.device == None)
    || (row.Some? && row.value.VendorRow? && c'.vendor == Some(row.value.vid) && c'.device == None)
    || (row.Some? && row.value.DeviceRow? && c.vendor == c'.vendor == Some(row.value.vid) && c'.device == Some(row.value.did))
  }

  lemma LineMoves(c: Context, line: string, subsystems: bool)
    ensures Moves(c, RowOf(c, line, subsystems), After(c, line))
  {
  }

  lemma MovesStayRooted(c: Context, row: Option<Row>, c': Context, allowed: Option<set<nat>>, p: Parsed)
    requires ContextRooted(c, p, allowed) && Moves(c, row, c')
    ensures ContextRooted(c', Added(p, row, allowed), allowed)
  {
    if row.Some? && Allowed(row.value, allowed) && c'.vendor.Some? {
      AddGrows(p, row.value, c'.vendor.value, if c'.device.Some? then c'.device.value else 0);
    }
  }

  lemma ContextStaysRooted(c: Context, line: string, subsystems: bool, allowed: Option<set<nat>>, p: Parsed)
    requires ContextRooted(c, p, allowed)
    ensures ContextRooted(After(c, line), Added(p, RowOf(c, line, subsystems), allowed), allowed)
  {
    LineMoves(c, line, subsystems);
    MovesStayRooted(c, RowOf(c, line, subsystems), After(c, line), allowed, p);
  }

  lemma RowRooted(c: Context, line: string, subsystems: bool, allowed: Option<set<nat>>, p: Parsed)
    requires ContextRooted(c, p, allowed) && RowOf(c, line, subsystems).Some?
    requires Allowed(RowOf(c, line, subsystems).value, allowed)
    ensures var row := RowOf(c, line, subsystems).value;
      && (row.DeviceRow? || row.SubsysRow? ==> Listed(p.vendors, row.vid) >= 1)
      && (row.SubsysRow? ==> DeviceRowCount(p.devices, row.vid, row.did) >= 1)
  {
  }

  lemma RowsStayRooted(rows: seq<Row>, row: Row)
    requires DevicesRooted(Collect(rows)) && SubsystemsRooted(OwnedRows(rows), Collect(rows))
    requires row.DeviceRow? || row.SubsysRow? ==> Listed(Collect(rows).vendors, row.vid) >= 1
    requires row.SubsysRow? ==> DeviceRowCount(Collect(rows).devices, row.vid, row.did) >= 1
    ensures DevicesRooted(Collect(rows + [row])) && SubsystemsRooted(OwnedRows(rows + [row]), Collect(rows + [row]))
  {
    var p := Collect(rows);
    assert (rows + [row])[..|rows|] == rows;
    forall d | d in Add(p, row).devices
      ensures Listed(Add(p, row).vendors, d.0) >= 1
    {
      AddGrows(p, row, d.0, d.1);
    }
    forall r | r in OwnedRows(rows + [row])
      ensures Listed(Add(p, row).vendors, r.0) >= 1 && DeviceRowCount(Add(p, row).devices, r.0, r.1) >= 1
    {
      AddGrows(p, row, r.0, r.1);
    }
  }

  /** Every parsed device's vendor was listed, and every subsystem's device has a row. */
  lemma {:induction false} ParsedIsRooted(lines: seq<string>, n: nat, subsystems: bool, allowed: Option<set<nat>>)
    requires n <= |lines|
    ensures var rows := Rows(lines[..n], START, subsystems, allowed);
      && ContextRooted(AfterAll(lines[..n], START), Collect(rows), allowed)
      && DevicesRooted(Collect(rows)) && SubsystemsRooted(OwnedRows(rows), Collect(rows))
  {
    if n > 0 {
      var i := n - 1;
      ParsedIsRooted(lines, i, subsystems, allowed);
      var rows, c := Rows(lines[..i], START, subsystems, allowed), AfterAll(lines[..i], START);
      var row := RowOf(c, lines[i], subsystems);
      NextLine(lines, i, subsystems, allowed, c, Collect(rows));
      RowsSnoc(lines, i, subsystems, allowed);
      ContextStaysRooted(c, lines[i], subsystems, allowed, Collect(rows));
      if row.Some? && Allowed(row.value, allowed) {
        RowRooted(c, lines[i], subsystems, allowed, Collect(rows));
        RowsStayRooted(rows, row.value);
      } else {
        assert rows + [] == rows;
      }
    }
  }

  /**
    For every text: schema 2 of what is parsed from it holds the devices and
    subsystems of schema 1, each under its own parent and as often, if and only
    if no vendor that has devices is listed twice and no device that has
    subsystems has two rows.
   */
  lemma EmissionConservesIff(text: string, subsystems: bool, allowed: Option<set<nat>>)
    ensures var rows := Rows(SplitLines(text), START, subsystems, allowed);
      var p := Collect(rows);
      var trees := Nodes(p.vendors, p.devices, p.byDevice);
      && (multiset(FlatDevices(trees)) == multiset(p.devices)
          <==> forall d :: d in p.devices ==> Listed(p.vendors, d.0) <= 1)
      && (multiset(FlatSubsystems(trees)) == multiset(OwnedRows(rows))
          <==> forall r :: r in OwnedRows(rows) ==> Listed(p.vendors, r.0) <= 1 && DeviceRowCount(p.devices, r.0, r.1) <= 1)
  {
    var lines := SplitLines(text);
    ParsedIsRooted(lines, |lines|, subsystems, allowed);
    assert lines[..|lines|] == lines;
    var rows := Rows(lines, START, subsystems, allowed);
    var p := Collect(rows);
    DevicesConservedIff(p.vendors, p.devices, p.byDevice);
    SubsystemsConservedIff(rows);
  }
}
