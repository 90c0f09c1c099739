/**
  Symbol lookup through a linker map, and the checks that an image, a map and
  a crash dump belong together, from scripts/rsod-decode.py.
 */
module Symbols {
  import opened Outcomes

  datatype Symbol = Symbol(addr: nat, name: string, obj: string)

  ghost predicate ByAddress(entries: seq<Symbol>)
  {
    forall i, j :: 0 <= i < j < |entries| ==> entries[i].addr <= entries[j].addr
  }

  function Insert(e: Symbol, entries: seq<Symbol>): (r: seq<Symbol>)
    ensures forall x :: x in r <==> x == e || x in entries
  {
    if entries == [] || e.addr <= entries[0].addr then [e] + entries else [entries[0]] + Insert(e, entries[1..])
  }

  /** `_map_entries` after parsing: nothing below the preferred base, in address order. */
  function MapEntries(parsed: seq<Symbol>, base: nat): (r: seq<Symbol>)
    ensures forall x :: x in r <==> x in parsed && x.addr >= base
  {
    if parsed == [] then []
    else if parsed[0].addr >= base then Insert(parsed[0], MapEntries(parsed[1..], base))
    else MapEntries(parsed[1..], base)
  }

  lemma {:induction false} InsertOrdered(e: Symbol, entries: seq<Symbol>)
    requires ByAddress(entries)
    ensures ByAddress(Insert(e, entries))
  {
    if entries != [] && entries[0].addr < e.addr {
      InsertOrdered(e, entries[1..]);
      forall x | x in Insert(e, entries[1..])
        ensures entries[0].addr <= x.addr
      {
        if x != e {
          assert x in entries[1..];
          var j :| 1 <= j < |entries| && entries[j] == x;
        }
      }
    }
  }

  lemma {:induction false} MapEntriesOrdered(parsed: seq<Symbol>, base: nat)
    ensures ByAddress(MapEntries(parsed, base))
  {
    if parsed != [] {
      MapEntriesOrdered(parsed[1..], base);
      InsertOrdered(parsed[0], MapEntries(parsed[1..], base));
    }
  }

  /** The last symbol of a list at an address. */
  function LastAt(list: seq<Symbol>, addr: nat): Option<Symbol>
  {
    if list == [] then None
    else if list[|list| - 1].addr == addr then Some(list[|list| - 1])
    else LastAt(list[..|list| - 1], addr)
  }

  lemma {:induction false} LastAtJoin(a: seq<Symbol>, b: seq<Symbol>, addr: nat)
    ensures LastAt(a + b, addr) == if LastAt(b, addr).Some? then LastAt(b, addr) else LastAt(a, addr)
    decreases |b|
  {
    if b == [] {
      assert a + b == a;
    } else {
      LastAtJoin(a, b[..|b| - 1], addr);
      assert (a + b)[..|a + b| - 1] == a + b[..|b| - 1];
    }
  }

  lemma LastAtCons(e: Symbol, list: seq<Symbol>, addr: nat)
    ensures LastAt([e] + list, addr) == if LastAt(list, addr).Some? then LastAt(list, addr) else if e.addr == addr then Some(e) else None
  {
    LastAtJoin([e], list, addr);
    assert [e][..0] == [];
  }

  lemma {:induction false} LastAtInsert(e: Symbol, entries: seq<Symbol>, addr: nat)
    ensures LastAt(Insert(e, entries), addr)
      == if LastAt(entries, addr).Some? then LastAt(entries, addr) else if e.addr == addr then Some(e) else None
  {
    LastAtCons(e, entries, addr);
    if entries != [] && entries[0].addr < e.addr {
      LastAtInsert(e, entries[1..], addr);
      LastAtCons(entries[0], Insert(e, entries[1..]), addr);
      LastAtCons(entries[0], entries[1..], addr);
      assert entries == [entries[0]] + entries[1..];
    }
  }

  /** Sorting is stable: of several symbols at one address the last in the map stays the last. */
  lemma {:induction false} LastAtKept(parsed: seq<Symbol>, base: nat, addr: nat)
    requires addr >= base
    ensures LastAt(MapEntries(parsed, base), addr) == LastAt(parsed, addr)
  {
    if parsed != [] {
      LastAtKept(parsed[1..], base, addr);
      LastAtCons(parsed[0], parsed[1..], addr);
      assert parsed == [parsed[0]] + parsed[1..];
      LastAtInsert(parsed[0], MapEntries(parsed[1..], base), addr);
    }
  }

  lemma {:induction false} LastAtIndex(entries: seq<Symbol>, i: nat)
    requires i < |entries| && forall k :: i < k < |entries| ==> entries[k].addr != entries[i].addr
    ensures LastAt(entries, entries[i].addr) == Some(entries[i])
  {
    if i < |entries| - 1 {
      LastAtIndex(entries[..|entries| - 1], i);
    }
  }

  // --- Lookup ---------------------------------------------------------------------------

  /** `s` is the symbol of the map nearest to `addr` from below. */
  ghost predicate IsNearest(entries: seq<Symbol>, addr: nat, s: Symbol)
  {
    s in entries && s.addr <= addr && forall e :: e in entries && e.addr <= addr ==> e.addr <= s.addr
  }

  ghost predicate HasNearest(entries: seq<Symbol>, addr: nat)
  {
    exists s :: IsNearest(entries, addr, s)
  }

  /** `_map_lookup`. */
  method MapLookup(entries: seq<Symbol>, addr: nat) returns (best: Option<Symbol>)
    requires ByAddress(entries)
    ensures best.Some? ==> IsNearest(entries, addr, best.value) && LastAt(entries, best.value.addr) == best
    ensures best == None <==> forall e :: e in entries ==> e.addr > addr
  {
    best := None;
    var i := 0;
    while i < |entries|
      invariant 0 <= i <= |entries|
      invariant best == if i == 0 then None else Some(entries[i - 1])
      invariant forall k :: 0 <= k < i ==> entries[k].addr <= addr
    {
      if entries[i].addr <= addr {
        best := Some(entries[i]);
      } else {
        break;
      }
      i := i + 1;
    }
    assert i < |entries| ==> entries[i].addr > addr;
    Stopped(entries, addr, i);
    if i > 0 {
      assert forall k :: i <= k < |entries| ==> entries[k].addr > addr;
      LastAtIndex(entries, i - 1);
    }
  }

  /** Where the loop stops splits the map into symbols at or below the address and symbols above it. */
  lemma Stopped(entries: seq<Symbol>, addr: nat, i: nat)
    requires ByAddress(entries) && i <= |entries|
    requires forall k :: 0 <= k < i ==> entries[k].addr <= addr
    requires i < |entries| ==> entries[i].addr > addr
    ensures i > 0 ==> IsNearest(entries, addr, entries[i - 1])
    ensures i == 0 <==> forall e :: e in entries ==> e.addr > addr
  {
    if i < |entries| {
      assert forall k :: i < k < |entries| ==> entries[i].addr <= entries[k].addr;
    }
    forall e | e in entries && e.addr <= addr
      ensures i > 0 && e.addr <= entries[i - 1].addr
    {
      var k :| 0 <= k < |entries| && entries[k] == e;
      assert k < i;
    }
    if i > 0 {
      assert entries[i - 1] in entries;
    }
  }

  datatype Resolved = Unresolved | MapSymbol(name: string, file: string, start: int, offset: int)

  /**
    `_resolve_address_map`: the offset from the image's base, looked up at the
    preferred base and, failing that, as it is.
   */
  method ResolveAddressMap(parsed: seq<Symbol>, base: nat, offset: nat) returns (r: Resolved)
    ensures r.MapSymbol? ==> exists s ::
      && s in parsed && base <= s.addr <= base + offset && LastAt(parsed, s.addr) == Some(s)
      && (forall e :: e in parsed && base <= e.addr <= base + offset ==> e.addr <= s.addr)
      && r == MapSymbol(s.name, s.obj, s.addr - base, base + offset - s.addr)
    ensures r.MapSymbol? ==> r.start >= 0 && r.offset >= 0 && r.start + r.offset == offset
    ensures r == Unresolved <==> forall e :: e in parsed ==> e.addr < base || e.addr > base + offset
  {
    var entries := MapEntries(parsed, base);
    MapEntriesOrdered(parsed, base);
    if entries == [] {
      return Unresolved;
    }
    for attempt := 0 to 2
      invariant attempt > 0 ==> forall e :: e in entries ==> e.addr > base + offset
    {
      var addr := if attempt == 0 then base + offset else offset;
      var hit := MapLookup(entries, addr);
      if hit.Some? {
        assert IsNearest(entries, base + offset, hit.value);
        LastAtKept(parsed, base, hit.value.addr);
        return MapSymbol(hit.value.name, hit.value.obj, hit.value.addr - base, addr - hit.value.addr);
      }
    }
    return Unresolved;
  }

  /** Whenever the second attempt would find a symbol, the first one does: it never changes a miss. */
  lemma SecondAttemptIsIdle(entries: seq<Symbol>, base: nat, offset: nat, s: Symbol)
    requires IsNearest(entries, offset, s)
    ensures HasNearest(entries, base + offset)
  {
    NearestExists(entries, base + offset, s);
  }

  lemma {:induction false} NearestExists(entries: seq<Symbol>, addr: nat, s: Symbol)
    requires s in entries && s.addr <= addr
    ensures HasNearest(entries, addr)
    decreases |entries|
  {
    var e, rest := entries[0], entries[1..];
    assert entries == [e] + rest;
    if below :| below in rest && below.addr <= addr {
      NearestExists(rest, addr, below);
      var t :| IsNearest(rest, addr, t);
      assert IsNearest(entries, addr, if e.addr <= addr && t.addr < e.addr then e else t);
    } else {
      assert IsNearest(entries, addr, s);
    }
  }

  // --- Image, map and dump --------------------------------------------------------------

  /** An entry of the dump's list of loaded images. */
  datatype Loaded = Loaded(base: nat, size: nat)

  datatype Warning =
    | SizeDiffers(expected: nat, recorded: nat)
    | MapPastDump(maxRva: int, recorded: nat)
    | MapPastImage(maxRva: int, size: nat)

  /** The fields of an image that the size checks read and write. */
  class Image {
    var base: Option<nat>
    var peSize: nat
    var mapMaxRva: int
    var warnings: seq<Warning>

    /** `register_image`, as far as sizes go: the highest symbol of the map against the base it is linked at. */
    constructor (base: Option<nat>, peSize: nat, parsed: seq<Symbol>, preferredBase: nat, linkBase: nat)
      ensures this.base == base && this.peSize == peSize && warnings == []
      ensures mapMaxRva == HighestRva(MapEntries(parsed, preferredBase), linkBase)
    {
      this.base, this.peSize, warnings := base, peSize, [];
      mapMaxRva := HighestRva(MapEntries(parsed, preferredBase), linkBase);
    }

    /** The size gates of `validate_image`. */
    method CheckSizes(loaded: seq<Loaded>)
      modifies this`warnings
      ensures warnings == old(warnings) + SizeWarnings(base, peSize, mapMaxRva, loaded)
    {
      if base == None {
        return;
      }
      for i := 0 to |loaded|
        invariant warnings == old(warnings)
        invariant forall k :: 0 <= k < i ==> loaded[k].base != base.value
      {
        if loaded[i].base != base.value {
          continue;
        }
        FirstAtIs(loaded, base.value, i);
        var size := loaded[i].size;
        if peSize != 0 && size != peSize {
          warnings := warnings + [SizeDiffers(peSize, size)];
        } else if peSize == 0 && mapMaxRva != 0 && mapMaxRva >= size {
          warnings := warnings + [MapPastDump(mapMaxRva, size)];
        }
        if mapMaxRva != 0 && peSize != 0 && mapMaxRva >= peSize {
          warnings := warnings + [MapPastImage(mapMaxRva, peSize)];
        }
        return;
      }
      NoneAt(loaded, base.value);
      if mapMaxRva != 0 && peSize != 0 && mapMaxRva >= peSize {
        warnings := warnings + [MapPastImage(mapMaxRva, peSize)];
      }
    }
  }

  /** The offset of the last symbol, or 0 without one. */
  function HighestRva(entries: seq<Symbol>, linkBase: nat): int
  {
    if entries == [] then 0 else entries[|entries| - 1].addr - linkBase
  }

  /** The first record of an image at `base`. */
  function FirstAt(loaded: seq<Loaded>, base: nat): Option<nat>
  {
    if loaded == [] then None
    else if loaded[0].base == base then Some(loaded[0].size)
    else FirstAt(loaded[1..], base)
  }

  lemma {:induction false} FirstAtIs(loaded: seq<Loaded>, base: nat, i: nat)
    requires i < |loaded| && loaded[i].base == base && forall k :: 0 <= k < i ==> loaded[k].base != base
    ensures FirstAt(loaded, base) == Some(loaded[i].size)
  {
    if i > 0 {
      assert loaded[0].base != base;
      FirstAtIs(loaded[1..], base, i - 1);
    }
  }

  lemma {:induction false} NoneAt(loaded: seq<Loaded>, base: nat)
    requires forall k :: 0 <= k < |loaded| ==> loaded[k].base != base
    ensures FirstAt(loaded, base) == None
  {
    if loaded != [] {
      NoneAt(loaded[1..], base);
    }
  }

  function SizeWarnings(base: Option<nat>, peSize: nat, maxRva: int, loaded: seq<Loaded>): seq<Warning>
  {
    if base == None then []
    else
      var recorded := FirstAt(loaded, base.value);
      (if recorded.Some? && peSize != 0 && recorded.value != peSize then [SizeDiffers(peSize, recorded.value)]
       else if recorded.Some? && peSize == 0 && maxRva != 0 && maxRva >= recorded.value then
         [MapPastDump(maxRva, recorded.value)]
       else [])
      + (if maxRva != 0 && peSize != 0 && maxRva >= peSize then [MapPastImage(maxRva, peSize)] else [])
  }

  ghost predicate IsFirstAt(loaded: seq<Loaded>, base: nat, i: nat)
  {
    i < |loaded| && loaded[i].base == base && forall k :: 0 <= k < i ==> loaded[k].base != base
  }

  /** The record of the first loaded image at that base, as the warnings quote it. */
  ghost predicate Recorded(loaded: seq<Loaded>, base: Option<nat>, size: nat)
  {
    base.Some? && exists i: nat :: IsFirstAt(loaded, base.value, i) && loaded[i].size == size
  }

  lemma RecordedIs(loaded: seq<Loaded>, base: nat, size: nat)
    ensures Recorded(loaded, Some(base), size) <==> FirstAt(loaded, base) == Some(size)
  {
    if i: nat :| IsFirstAt(loaded, base, i) && loaded[i].size == size {
      FirstAtIs(loaded, base, i);
    }
    if FirstAt(loaded, base) == Some(size) {
      var i := FirstRecord(loaded, base);
    }
  }

  lemma {:induction false} FirstRecord(loaded: seq<Loaded>, base: nat) returns (i: nat)
    requires FirstAt(loaded, base).Some?
    ensures IsFirstAt(loaded, base, i) && loaded[i].size == FirstAt(loaded, base).value
  {
    if loaded[0].base == base {
      i := 0;
    } else {
      var j := FirstRecord(loaded[1..], base);
      i := j + 1;
    }
  }

  /** When each warning is given, and what it says. */
  lemma WarningsSay(base: Option<nat>, peSize: nat, maxRva: int, loaded: seq<Loaded>, a: nat, m: int, b: nat)
    ensures var w := SizeWarnings(base, peSize, maxRva, loaded);
      && (SizeDiffers(a, b) in w <==> a == peSize != 0 && Recorded(loaded, base, b) && a != b)
      && (MapPastDump(m, b) in w <==> peSize == 0 && m == maxRva != 0 && Recorded(loaded, base, b) && m >= b)
      && (MapPastImage(m, b) in w <==> base.Some? && b == peSize != 0 && m == maxRva != 0 && m >= b)
  {
    if base.Some? {
      RecordedIs(loaded, base.value, b);
    }
  }

  /** Every symbol of the map lies inside an image of `size` bytes linked at `linkBase`. */
  ghost predicate InsideImage(entries: seq<Symbol>, linkBase: nat, size: nat)
  {
    forall e :: e in entries ==> linkBase <= e.addr < linkBase + size
  }

  lemma HighestRvaInside(parsed: seq<Symbol>, base: nat, linkBase: nat, size: nat)
    requires size > 0 && InsideImage(MapEntries(parsed, base), linkBase, size)
    ensures 0 <= HighestRva(MapEntries(parsed, base), linkBase) < size
  {
    var entries := MapEntries(parsed, base);
    if entries != [] {
      assert entries[|entries| - 1] in entries;
    }
  }

  /**
    Size warnings never accuse a consistent triple: an image of `size` bytes, a
    map of that image with its link base known, and a dump that recorded it.
   */
  lemma ConsistentIsSilent(base: Option<nat>, size: nat, peSize: nat, parsed: seq<Symbol>, preferred: nat, linkBase: nat,
                           loaded: seq<Loaded>)
    requires size > 0 && (peSize == 0 || peSize == size)
    requires InsideImage(MapEntries(parsed, preferred), linkBase, size)
    requires base.Some? && FirstAt(loaded, base.value).Some? ==> FirstAt(loaded, base.value).value == size
    ensures SizeWarnings(base, peSize, HighestRva(MapEntries(parsed, preferred), linkBase), loaded) == []
  {
    HighestRvaInside(parsed, preferred, linkBase, size);
  }

  /** With a PE and a map that fits it, the dump is the judge: a warning if and only if it recorded another size. */
  lemma AccusedIffSizesDiffer(base: nat, size: nat, parsed: seq<Symbol>, preferred: nat, linkBase: nat, loaded: seq<Loaded>)
    requires size > 0 && InsideImage(MapEntries(parsed, preferred), linkBase, size)
    ensures SizeWarnings(Some(base), size, HighestRva(MapEntries(parsed, preferred), linkBase), loaded) == []
      <==> FirstAt(loaded, base) == None || FirstAt(loaded, base) == Some(size)
  {
    HighestRvaInside(parsed, preferred, linkBase, size);
  }

  /**
    A consistent triple measured against any base at all: it is left in peace
    if and only if the last symbol lies below that base plus the image's size.
   */
  lemma SilentIffBaseReaches(base: nat, size: nat, peSize: nat, parsed: seq<Symbol>, preferred: nat, linkBase: nat,
                             used: nat, loaded: seq<Loaded>)
    requires size > 0 && (peSize == 0 || peSize == size) && FirstAt(loaded, base) == Some(size)
    requires var entries := MapEntries(parsed, preferred); entries != [] && InsideImage(entries, linkBase, size)
    ensures var entries := MapEntries(parsed, preferred);
      SizeWarnings(Some(base), peSize, HighestRva(entries, used), loaded) == []
      <==> entries[|entries| - 1].addr < used + size
  {
  }

  /** So a map that states no base, linked at or above the image's own size, is accused although nothing is wrong. */
  lemma UnknownLinkBaseAccuses(base: nat, size: nat, peSize: nat, parsed: seq<Symbol>, linkBase: nat, loaded: seq<Loaded>)
    requires 0 < size <= linkBase && (peSize == 0 || peSize == size) && FirstAt(loaded, base) == Some(size)
    requires MapEntries(parsed, 0) != [] && InsideImage(MapEntries(parsed, 0), linkBase, size)
    ensures SizeWarnings(Some(base), peSize, HighestRva(MapEntries(parsed, 0), 0), loaded) != []
  {
    var entries := MapEntries(parsed, 0);
    SilentIffBaseReaches(base, size, peSize, parsed, 0, linkBase, 0, loaded);
    assert entries[|entries| - 1] in entries;
  }
}
