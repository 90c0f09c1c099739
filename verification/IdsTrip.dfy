/**
  From pci.ids text to the hierarchical document: printing a database, parsing
  the text and emitting schema 2 gives the vendor tree back.
 */
module IdsTrip {
  import opened Outcomes
  import opened IdsParser
  import opened IdsText
  import opened IdsEmit

  // --- What the rows say, entity by entity --------------------------------------------

  function VendorsIn(rows: seq<Row>): seq<(nat, string)>
  {
    if rows == [] then []
    else
      var rest, r := VendorsIn(rows[..|rows| - 1]), rows[|rows| - 1];
      if r.VendorRow? then rest + [(r.vid, r.name)] else rest
  }

  function DevicesIn(rows: seq<Row>, vid: nat): seq<(nat, string)>
  {
    if rows == [] then []
    else
      var rest, r := DevicesIn(rows[..|rows| - 1], vid), rows[|rows| - 1];
      if r.DeviceRow? && r.vid == vid then rest + [(r.did, r.name)] else rest
  }

  function SubsystemsIn(rows: seq<Row>, vid: nat, did: nat): seq<Subsys>
  {
    if rows == [] then []
    else
      var rest, r := SubsystemsIn(rows[..|rows| - 1], vid, did), rows[|rows| - 1];
      if r.SubsysRow? && r.vid == vid && r.did == did then rest + [Subsys(r.svid, r.sdid, r.name)] else rest
  }

  lemma {:induction false} CollectSays(rows: seq<Row>, vid: nat, did: nat)
    ensures Collect(rows).vendors == VendorsIn(rows)
    ensures DevicesOf(Collect(rows).devices, vid) == DevicesIn(rows, vid)
    ensures At(Collect(rows).byDevice, (vid, did)) == SubsystemsIn(rows, vid, did)
  {
    if rows != [] {
      CollectSays(rows[..|rows| - 1], vid, did);
      var p, r := Collect(rows[..|rows| - 1]), rows[|rows| - 1];
      if r.DeviceRow? {
        assert (p.devices + [(r.vid, r.did, r.name)])[..|p.devices|] == p.devices;
      }
    }
  }

  lemma {:induction false} VendorsInJoin(a: seq<Row>, b: seq<Row>)
    ensures VendorsIn(a + b) == VendorsIn(a) + VendorsIn(b)
  {
    if b == [] {
      assert a + b == a;
    } else {
      VendorsInJoin(a, b[..|b| - 1]);
      assert (a + b)[..|a + b| - 1] == a + b[..|b| - 1];
    }
  }

  lemma {:induction false} DevicesInJoin(a: seq<Row>, b: seq<Row>, vid: nat)
    ensures DevicesIn(a + b, vid) == DevicesIn(a, vid) + DevicesIn(b, vid)
  {
    if b == [] {
      assert a + b == a;
    } else {
      DevicesInJoin(a, b[..|b| - 1], vid);
      assert (a + b)[..|a + b| - 1] == a + b[..|b| - 1];
    }
  }

  lemma {:induction false} SubsystemsInJoin(a: seq<Row>, b: seq<Row>, vid: nat, did: nat)
    ensures SubsystemsIn(a + b, vid, did) == SubsystemsIn(a, vid, did) + SubsystemsIn(b, vid, did)
  {
    if b == [] {
      assert a + b == a;
    } else {
      SubsystemsInJoin(a, b[..|b| - 1], vid, did);
      assert (a + b)[..|a + b| - 1] == a + b[..|b| - 1];
    }
  }

  /** Rows of one kind say nothing about the others. */
  lemma {:induction false} NothingIn(rows: seq<Row>, vid: nat, did: nat)
    ensures (forall k :: 0 <= k < |rows| ==> !rows[k].VendorRow?) ==> VendorsIn(rows) == []
    ensures (forall k :: 0 <= k < |rows| ==> !(rows[k].DeviceRow? && rows[k].vid == vid)) ==> DevicesIn(rows, vid) == []
    ensures (forall k :: 0 <= k < |rows| ==> !(rows[k].SubsysRow? && rows[k].vid == vid && rows[k].did == did)) ==>
      SubsystemsIn(rows, vid, did) == []
  {
    if rows != [] {
      NothingIn(rows[..|rows| - 1], vid, did);
    }
  }

  // --- The rows of a tree ----------------------------------------------------------------

  lemma {:induction false} SubsysRowsAre(vid: nat, did: nat, subs: seq<Subsys>)
    ensures forall k :: 0 <= k < |SubsysRows(vid, did, subs)| ==>
      var r := SubsysRows(vid, did, subs)[k]; r.SubsysRow? && r.vid == vid && r.did == did
    ensures SubsystemsIn(SubsysRows(vid, did, subs), vid, did) == subs
  {
    if subs != [] {
      SubsysRowsAre(vid, did, subs[1..]);
      var first := SubsysRow(vid, did, subs[0].svid, subs[0].sdid, subs[0].name);
      SubsystemsInJoin([first], SubsysRows(vid, did, subs[1..]), vid, did);
      assert [first][..0] == [];
      assert SubsystemsIn([first], vid, did) == [subs[0]];
      assert subs == [subs[0]] + subs[1..];
    }
  }

  /** Every row under a vendor is a device or subsystem of that vendor. */
  lemma {:induction false} DeviceRowsAre(vid: nat, devices: seq<DeviceTree>)
    ensures forall k :: 0 <= k < |DeviceRows(vid, devices, true)| ==>
      var r := DeviceRows(vid, devices, true)[k];
      (r.DeviceRow? || r.SubsysRow?) && r.vid == vid && exists j :: 0 <= j < |devices| && devices[j].did == r.did
  {
    if devices != [] {
      var d, all := devices[0], DeviceRows(vid, devices, true);
      DeviceRowsAre(vid, devices[1..]);
      SubsysRowsAre(vid, d.did, d.subsystems);
      var head, rest := [DeviceRow(vid, d.did, d.name)] + SubsysRows(vid, d.did, d.subsystems), DeviceRows(vid, devices[1..], true);
      assert all == head + rest;
      forall k | 0 <= k < |all|
        ensures (all[k].DeviceRow? || all[k].SubsysRow?) && all[k].vid == vid &&
                exists j :: 0 <= j < |devices| && devices[j].did == all[k].did
      {
        if k >= |head| {
          var r := rest[k - |head|];
          var j :| 0 <= j < |devices[1..]| && devices[1..][j].did == r.did;
          assert devices[j + 1].did == r.did;
        } else {
          assert devices[0].did == all[k].did;
        }
      }
    }
  }

  /** A vendor's device rows give its list of devices. */
  function Pairs(devices: seq<DeviceTree>): seq<(nat, string)>
  {
    if devices == [] then [] else [(devices[0].did, devices[0].name)] + Pairs(devices[1..])
  }

  /** The rows of one device. */
  function OwnRows(vid: nat, d: DeviceTree): seq<Row>
  {
    [DeviceRow(vid, d.did, d.name)] + SubsysRows(vid, d.did, d.subsystems)
  }

  lemma OwnRowsList(vid: nat, d: DeviceTree)
    ensures DevicesIn(OwnRows(vid, d), vid) == [(d.did, d.name)]
  {
    var first, subs := [DeviceRow(vid, d.did, d.name)], SubsysRows(vid, d.did, d.subsystems);
    SubsysRowsAre(vid, d.did, d.subsystems);
    NothingIn(subs, vid, 0);
    DevicesInJoin(first, subs, vid);
    assert first[..0] == [];
    assert DevicesIn(first, vid) == [(d.did, d.name)];
  }

  lemma {:induction false} DeviceRowsList(vid: nat, devices: seq<DeviceTree>)
    ensures DevicesIn(DeviceRows(vid, devices, true), vid) == Pairs(devices)
  {
    if devices != [] {
      DeviceRowsList(vid, devices[1..]);
      OwnRowsList(vid, devices[0]);
      DevicesInJoin(OwnRows(vid, devices[0]), DeviceRows(vid, devices[1..], true), vid);
    }
  }

  ghost predicate DistinctDevices(devices: seq<DeviceTree>)
  {
    forall i, j :: 0 <= i < j < |devices| ==> devices[i].did != devices[j].did
  }

  ghost predicate DistinctVendors(vendors: seq<VendorTree>)
  {
    forall i, j :: 0 <= i < j < |vendors| ==> vendors[i].vid != vendors[j].vid
  }

  /** A device's subsystem rows are its own, if its id is its own. */
  lemma {:induction false} DeviceRowsFile(vid: nat, devices: seq<DeviceTree>, k: nat)
    requires DistinctDevices(devices) && k < |devices|
    ensures SubsystemsIn(DeviceRows(vid, devices, true), vid, devices[k].did) == devices[k].subsystems
  {
    var d, did := devices[0], devices[k].did;
    var first, subs, rest := [DeviceRow(vid, d.did, d.name)], SubsysRows(vid, d.did, d.subsystems), DeviceRows(vid, devices[1..], true);
    SubsysRowsAre(vid, d.did, d.subsystems);
    NothingIn(first, vid, did);
    NothingIn(subs, vid, did);
    SubsystemsInJoin(first, subs, vid, did);
    SubsystemsInJoin(first + subs, rest, vid, did);
    if k == 0 {
      NotFiled(vid, devices[1..], did);
    } else {
      DeviceRowsFile(vid, devices[1..], k - 1);
    }
  }

  lemma NotFiled(vid: nat, devices: seq<DeviceTree>, did: nat)
    requires forall j :: 0 <= j < |devices| ==> devices[j].did != did
    ensures SubsystemsIn(DeviceRows(vid, devices, true), vid, did) == []
  {
    DeviceRowsAre(vid, devices);
    NothingIn(DeviceRows(vid, devices, true), vid, did);
  }

  // --- All vendors ------------------------------------------------------------------------

  /** The rows of one vendor. */
  function VendorBlock(v: VendorTree): seq<Row>
  {
    [VendorRow(v.vid, v.name)] + DeviceRows(v.vid, v.devices, true)
  }

  lemma BlockSays(v: VendorTree, vid: nat, did: nat)
    ensures VendorsIn(VendorBlock(v)) == [(v.vid, v.name)]
    ensures DevicesIn(VendorBlock(v), vid) == if v.vid == vid then Pairs(v.devices) else []
    ensures SubsystemsIn(VendorBlock(v), vid, did)
      == if v.vid == vid then SubsystemsIn(DeviceRows(v.vid, v.devices, true), vid, did) else []
  {
    var first, rows := [VendorRow(v.vid, v.name)], DeviceRows(v.vid, v.devices, true);
    DeviceRowsAre(v.vid, v.devices);
    DeviceRowsList(v.vid, v.devices);
    NothingIn(first, vid, did);
    NothingIn(rows, vid, did);
    VendorsInJoin(first, rows);
    DevicesInJoin(first, rows, vid);
    SubsystemsInJoin(first, rows, vid, did);
    assert first[..0] == [];
    assert VendorsIn(first) == [(v.vid, v.name)];
  }

  function Names(vendors: seq<VendorTree>): seq<(nat, string)>
  {
    if vendors == [] then [] else [(vendors[0].vid, vendors[0].name)] + Names(vendors[1..])
  }

  lemma {:induction false} VendorRowsList(vendors: seq<VendorTree>)
    ensures VendorsIn(VendorRows(vendors, true)) == Names(vendors)
  {
    if vendors != [] {
      VendorRowsList(vendors[1..]);
      BlockSays(vendors[0], 0, 0);
      VendorsInJoin(VendorBlock(vendors[0]), VendorRows(vendors[1..], true));
    }
  }

  lemma {:induction false} VendorRowsElsewhere(vendors: seq<VendorTree>, vid: nat, did: nat)
    requires forall j :: 0 <= j < |vendors| ==> vendors[j].vid != vid
    ensures DevicesIn(VendorRows(vendors, true), vid) == []
    ensures SubsystemsIn(VendorRows(vendors, true), vid, did) == []
  {
    if vendors != [] {
      VendorRowsElsewhere(vendors[1..], vid, did);
      BlockSays(vendors[0], vid, did);
      DevicesInJoin(VendorBlock(vendors[0]), VendorRows(vendors[1..], true), vid);
      SubsystemsInJoin(VendorBlock(vendors[0]), VendorRows(vendors[1..], true), vid, did);
    }
  }

  /** Among vendors with ids of their own, each has its own devices and subsystems. */
  lemma {:induction false} VendorRowsSay(vendors: seq<VendorTree>, k: nat, did: nat)
    requires DistinctVendors(vendors) && k < |vendors|
    ensures var v := vendors[k];
      && DevicesIn(VendorRows(vendors, true), v.vid) == Pairs(v.devices)
      && SubsystemsIn(VendorRows(vendors, true), v.vid, did) == SubsystemsIn(DeviceRows(v.vid, v.devices, true), v.vid, did)
  {
    var vid := vendors[k].vid;
    var block, rest := VendorBlock(vendors[0]), VendorRows(vendors[1..], true);
    BlockSays(vendors[0], vid, did);
    DevicesInJoin(block, rest, vid);
    SubsystemsInJoin(block, rest, vid, did);
    if k == 0 {
      VendorRowsElsewhere(vendors[1..], vid, did);
    } else {
      VendorRowsSay(vendors[1..], k - 1, did);
    }
  }

  lemma {:induction false} ClassRowsAre(classes: seq<ClassTree>)
    ensures forall k :: 0 <= k < |ClassRows(classes)| ==> IsClassRow(ClassRows(classes)[k])
  {
    if classes != [] {
      ClassRowsAre(classes[1..]);
      SubRowsAre(classes[0].base, classes[0].subs);
    }
  }

  predicate IsClassRow(r: Row)
  {
    r.BaseRow? || r.SubRow? || r.ProgRow?
  }

  lemma {:induction false} SubRowsAre(base: nat, subs: seq<SubTree>)
    ensures forall k :: 0 <= k < |SubRows(base, subs)| ==> IsClassRow(SubRows(base, subs)[k])
  {
    if subs != [] {
      SubRowsAre(base, subs[1..]);
      ProgRowsAre(base, subs[0].sub, subs[0].progs);
    }
  }

  lemma {:induction false} ProgRowsAre(base: nat, sub: nat, progs: seq<ProgTree>)
    ensures forall k :: 0 <= k < |ProgRows(base, sub, progs)| ==> IsClassRow(ProgRows(base, sub, progs)[k])
  {
    if progs != [] {
      ProgRowsAre(base, sub, progs[1..]);
    }
  }

  lemma DatabaseSays(d: Database, vid: nat, did: nat)
    ensures var rows := DatabaseRows(d, true);
      && VendorsIn(rows) == Names(d.vendors)
      && DevicesIn(rows, vid) == DevicesIn(VendorRows(d.vendors, true), vid)
      && SubsystemsIn(rows, vid, did) == SubsystemsIn(VendorRows(d.vendors, true), vid, did)
  {
    var a, b := VendorRows(d.vendors, true), ClassRows(d.classes);
    ClassRowsAre(d.classes);
    NothingIn(b, vid, did);
    VendorsInJoin(a, b);
    DevicesInJoin(a, b, vid);
    SubsystemsInJoin(a, b, vid, did);
    VendorRowsList(d.vendors);
  }

  // --- The trip ------------------------------------------------------------------------------

  /** Nodes built from a vendor's pairs are its devices, if the dictionary has their subsystems. */
  lemma {:induction false} PairsBack(devices: seq<DeviceTree>, vid: nat, byDevice: ByDevice)
    requires forall k :: 0 <= k < |devices| ==> At(byDevice, (vid, devices[k].did)) == devices[k].subsystems
    ensures DeviceNodes(Pairs(devices), vid, byDevice) == devices
  {
    if devices != [] {
      PairsBack(devices[1..], vid, byDevice);
      var list := Pairs(devices);
      assert list[1..] == Pairs(devices[1..]);
      assert DeviceNodes(list, vid, byDevice)
        == [DeviceTree(list[0].0, list[0].1, At(byDevice, (vid, list[0].0)))] + DeviceNodes(list[1..], vid, byDevice);
    }
  }

  lemma {:induction false} NamesBack(vendors: seq<VendorTree>, devices: seq<Device>, byDevice: ByDevice)
    requires forall k :: 0 <= k < |vendors| ==>
      DeviceNodes(DevicesOf(devices, vendors[k].vid), vendors[k].vid, byDevice) == vendors[k].devices
    ensures Nodes(Names(vendors), devices, byDevice) == vendors
  {
    if vendors != [] {
      NamesBack(vendors[1..], devices, byDevice);
      assert Names(vendors)[1..] == Names(vendors[1..]);
      assert DeviceNodes(DevicesOf(devices, vendors[0].vid), vendors[0].vid, byDevice) == vendors[0].devices;
    }
  }

  lemma VendorBack(d: Database, k: nat)
    requires DistinctVendors(d.vendors) && k < |d.vendors| && DistinctDevices(d.vendors[k].devices)
    ensures var p, v := Collect(DatabaseRows(d, true)), d.vendors[k];
      DeviceNodes(DevicesOf(p.devices, v.vid), v.vid, p.byDevice) == v.devices
  {
    var rows, v := DatabaseRows(d, true), d.vendors[k];
    var p := Collect(rows);
    forall j | 0 <= j < |v.devices|
      ensures At(p.byDevice, (v.vid, v.devices[j].did)) == v.devices[j].subsystems
    {
      var did := v.devices[j].did;
      CollectSays(rows, v.vid, did);
      DatabaseSays(d, v.vid, did);
      VendorRowsSay(d.vendors, k, did);
      DeviceRowsFile(v.vid, v.devices, j);
    }
    CollectSays(rows, v.vid, 0);
    DatabaseSays(d, v.vid, 0);
    VendorRowsSay(d.vendors, k, 0);
    PairsBack(v.devices, v.vid, p.byDevice);
  }

  /**
    A database with vendor ids of their own, and device ids of their own under
    each vendor, comes back whole from its text as the schema 2 document.
   */
  lemma TextToTree(d: Database)
    requires GoodDatabase(d) && DistinctVendors(d.vendors)
    requires forall k :: 0 <= k < |d.vendors| ==> DistinctDevices(d.vendors[k].devices)
    ensures var p := Parse(Print(d), true, None); Nodes(p.vendors, p.devices, p.byDevice) == d.vendors
  {
    ParseInvertsPrint(d, true);
    var p := Collect(DatabaseRows(d, true));
    CollectSays(DatabaseRows(d, true), 0, 0);
    DatabaseSays(d, 0, 0);
    forall k | 0 <= k < |d.vendors|
      ensures DeviceNodes(DevicesOf(p.devices, d.vendors[k].vid), d.vendors[k].vid, p.byDevice) == d.vendors[k].devices
    {
      VendorBack(d, k);
    }
    NamesBack(d.vendors, p.devices, p.byDevice);
  }
}
