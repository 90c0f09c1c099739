/**
  The classes block of scripts/pci-ids-to-json5.py: base classes, subclasses
  and programming interfaces, grouped by sorted dictionaries.
 */
module ClassEmit {
  import opened Outcomes
  import opened Counting
  import opened PyText

  type Base = (nat, string)
  type Sub = (nat, nat, string)
  type Prog = (nat, nat, nat, string)

  datatype SubNode = SubNode(sub: nat, name: Option<string>, progs: seq<(nat, string)>)
  datatype ClassNode = ClassNode(base: nat, name: Option<string>, subs: seq<SubNode>)

  // --- Dictionaries and sorted sets -----------------------------------------------------

  /** `sorted(set(...))`, one element at a time. */
  function InsertCode(c: nat, codes: seq<nat>): (r: seq<nat>)
    ensures forall x :: x in r <==> x == c || x in codes
  {
    if codes == [] || c < codes[0] then [c] + codes
    else if c == codes[0] then codes
    else [codes[0]] + InsertCode(c, codes[1..])
  }

  function Codes(list: seq<nat>): (r: seq<nat>)
    ensures forall x :: x in r <==> x in list
  {
    if list == [] then [] else InsertCode(list[0], Codes(list[1..]))
  }

  ghost predicate Ascending(codes: seq<nat>)
  {
    forall i, j :: 0 <= i < j < |codes| ==> codes[i] < codes[j]
  }

  lemma {:induction false} InsertCodeAscends(c: nat, codes: seq<nat>)
    requires Ascending(codes)
    ensures Ascending(InsertCode(c, codes))
  {
    if codes != [] && codes[0] < c {
      InsertCodeAscends(c, codes[1..]);
      var rest := InsertCode(c, codes[1..]);
      forall k | 0 <= k < |rest|
        ensures codes[0] < rest[k]
      {
        assert rest[k] in rest;
        if rest[k] != c {
          assert rest[k] in codes[1..];
          var j :| 1 <= j < |codes| && codes[j] == rest[k];
        }
      }
    }
  }

  lemma {:induction false} CodesAscend(list: seq<nat>)
    ensures Ascending(Codes(list))
  {
    if list != [] {
      CodesAscend(list[1..]);
      InsertCodeAscends(list[0], Codes(list[1..]));
    }
  }

  /** `{b: name for b, name in bases}.get(b)`: the last name wins. */
  function BaseName(bases: seq<Base>, b: nat): Option<string>
  {
    if bases == [] then None
    else if bases[|bases| - 1].0 == b then Some(bases[|bases| - 1].1)
    else BaseName(bases[..|bases| - 1], b)
  }

  function SubName(subs: seq<Sub>, b: nat, s: nat): Option<string>
  {
    if subs == [] then None
    else
      var last := subs[|subs| - 1];
      if last.0 == b && last.1 == s then Some(last.2) else SubName(subs[..|subs| - 1], b, s)
  }

  /** `prog_groups.get((b, s), [])`. */
  function Group(progs: seq<Prog>, b: nat, s: nat): seq<(nat, string)>
  {
    if progs == [] then []
    else
      var rest, last := Group(progs[..|progs| - 1], b, s), progs[|progs| - 1];
      if last.0 == b && last.1 == s then rest + [(last.2, last.3)] else rest
  }

  predicate PairLeq(x: (nat, string), y: (nat, string))
  {
    x.0 < y.0 || (x.0 == y.0 && StringLeq(x.1, y.1))
  }

  function InsertPair(x: (nat, string), list: seq<(nat, string)>): seq<(nat, string)>
  {
    if list == [] || PairLeq(x, list[0]) then [x] + list else [list[0]] + InsertPair(x, list[1..])
  }

  /** `sorted(sub_progs)`. */
  function SortPairs(list: seq<(nat, string)>): seq<(nat, string)>
  {
    if list == [] then [] else InsertPair(list[0], SortPairs(list[1..]))
  }

  lemma {:induction false} InsertPairCounts(x: (nat, string), list: seq<(nat, string)>, y: (nat, string))
    ensures Count(InsertPair(x, list), y) == Count(list, y) + if x == y then 1 else 0
  {
    if list == [] || PairLeq(x, list[0]) {
      CountCons(x, list, y);
    } else {
      InsertPairCounts(x, list[1..], y);
      CountCons(list[0], InsertPair(x, list[1..]), y);
      CountCons(list[0], list[1..], y);
      assert list == [list[0]] + list[1..];
    }
  }

  lemma {:induction false} SortPairsCounts(list: seq<(nat, string)>, y: (nat, string))
    ensures Count(SortPairs(list), y) == Count(list, y)
  {
    if list != [] {
      SortPairsCounts(list[1..], y);
      InsertPairCounts(list[0], SortPairs(list[1..]), y);
      CountCons(list[0], list[1..], y);
      assert list == [list[0]] + list[1..];
    }
  }

  // --- The block ------------------------------------------------------------------------

  function SubCodes(subs: seq<Sub>, progs: seq<Prog>, b: nat): seq<nat>
  {
    if subs != [] then
      (if subs[0].0 == b then [subs[0].1] else []) + SubCodes(subs[1..], progs, b)
    else if progs != [] then
      (if progs[0].0 == b then [progs[0].1] else []) + SubCodes(subs, progs[1..], b)
    else []
  }

  function BaseCodes(bases: seq<Base>, subs: seq<Sub>, progs: seq<Prog>): seq<nat>
  {
    seq(|bases|, k requires 0 <= k < |bases| => bases[k].0)
    + seq(|subs|, k requires 0 <= k < |subs| => subs[k].0)
    + seq(|progs|, k requires 0 <= k < |progs| => progs[k].0)
  }

  /** The subclasses of base `b` with these codes; one with neither name nor interfaces is left out. */
  function SubNodes(codes: seq<nat>, b: nat, subs: seq<Sub>, progs: seq<Prog>): seq<SubNode>
  {
    if codes == [] then []
    else
      var name, group := SubName(subs, b, codes[0]), Group(progs, b, codes[0]);
      (if group == [] && name == None then [] else [SubNode(codes[0], name, SortPairs(group))])
      + SubNodes(codes[1..], b, subs, progs)
  }

  function ClassNodes(codes: seq<nat>, bases: seq<Base>, subs: seq<Sub>, progs: seq<Prog>): seq<ClassNode>
  {
    if codes == [] then []
    else
      var b := codes[0];
      var name, subCodes := BaseName(bases, b), Codes(SubCodes(subs, progs, b));
      (if subCodes == [] && name == None then [] else [ClassNode(b, name, SubNodes(subCodes, b, subs, progs))])
      + ClassNodes(codes[1..], bases, subs, progs)
  }

  /** The classes block of schema 2. */
  function Classes(bases: seq<Base>, subs: seq<Sub>, progs: seq<Prog>): seq<ClassNode>
  {
    ClassNodes(Codes(BaseCodes(bases, subs, progs)), bases, subs, progs)
  }

  // --- Programming interfaces are conserved ------------------------------------------------

  function Tag(b: nat, s: nat, list: seq<(nat, string)>): seq<Prog>
  {
    seq(|list|, k requires 0 <= k < |list| => (b, s, list[k].0, list[k].1))
  }

  function SubProgs(b: nat, nodes: seq<SubNode>): seq<Prog>
  {
    if nodes == [] then [] else Tag(b, nodes[0].sub, nodes[0].progs) + SubProgs(b, nodes[1..])
  }

  function FlatProgs(nodes: seq<ClassNode>): seq<Prog>
  {
    if nodes == [] then [] else SubProgs(nodes[0].base, nodes[0].subs) + FlatProgs(nodes[1..])
  }

  lemma {:induction false} TagCounts(b: nat, s: nat, list: seq<(nat, string)>, row: Prog)
    ensures Count(Tag(b, s, list), row) == if row.0 == b && row.1 == s then Count(list, (row.2, row.3)) else 0
  {
    if list != [] {
      var front, last := list[..|list| - 1], list[|list| - 1];
      TagCounts(b, s, front, row);
      assert Tag(b, s, list) == Tag(b, s, front) + [(b, s, last.0, last.1)];
      CountSnoc(Tag(b, s, front), (b, s, last.0, last.1), row);
    }
  }

  lemma {:induction false} GroupCounts(progs: seq<Prog>, row: Prog)
    ensures Count(Group(progs, row.0, row.1), (row.2, row.3)) == Count(progs, row)
  {
    if progs != [] {
      var front, last := progs[..|progs| - 1], progs[|progs| - 1];
      GroupCounts(front, row);
      if last.0 == row.0 && last.1 == row.1 {
        CountSnoc(Group(front, row.0, row.1), (last.2, last.3), (row.2, row.3));
      }
    }
  }

  lemma SubProgsCons(b: nat, node: SubNode, nodes: seq<SubNode>, row: Prog)
    ensures Count(SubProgs(b, [node] + nodes), row) == Count(Tag(b, node.sub, node.progs), row) + Count(SubProgs(b, nodes), row)
  {
    assert ([node] + nodes)[1..] == nodes;
    CountConcat(Tag(b, node.sub, node.progs), SubProgs(b, nodes), row);
  }

  /** One subclass holds its own interfaces, all of them. */
  lemma SubNodeCounts(b: nat, s: nat, progs: seq<Prog>, row: Prog)
    ensures Count(Tag(b, s, SortPairs(Group(progs, b, s))), row) == if row.0 == b && row.1 == s then Count(progs, row) else 0
  {
    TagCounts(b, s, SortPairs(Group(progs, b, s)), row);
    SortPairsCounts(Group(progs, b, s), (row.2, row.3));
    if row.0 == b && row.1 == s {
      GroupCounts(progs, row);
    }
  }

  lemma {:induction false} SubNodesCount(codes: seq<nat>, b: nat, subs: seq<Sub>, progs: seq<Prog>, row: Prog)
    requires Ascending(codes)
    ensures Count(SubProgs(b, SubNodes(codes, b, subs, progs)), row)
      == if row.0 == b && row.1 in codes then Count(progs, row) else 0
  {
    if codes != [] {
      var s, rest := codes[0], SubNodes(codes[1..], b, subs, progs);
      SubNodesCount(codes[1..], b, subs, progs, row);
      SubNodeCounts(b, s, progs, row);
      var name, group := SubName(subs, b, s), Group(progs, b, s);
      assert s !in codes[1..];
      assert row.1 in codes <==> row.1 == s || row.1 in codes[1..];
      if group == [] && name == None {
        assert Tag(b, s, SortPairs(group)) == [];
        assert [] + rest == rest;
      } else {
        SubProgsCons(b, SubNode(s, name, SortPairs(group)), rest, row);
      }
    }
  }

  lemma FlatProgsCons(node: ClassNode, nodes: seq<ClassNode>, row: Prog)
    ensures Count(FlatProgs([node] + nodes), row) == Count(SubProgs(node.base, node.subs), row) + Count(FlatProgs(nodes), row)
  {
    assert ([node] + nodes)[1..] == nodes;
    CountConcat(SubProgs(node.base, node.subs), FlatProgs(nodes), row);
  }

  lemma {:induction false} SubCodesHave(subs: seq<Sub>, progs: seq<Prog>, b: nat, row: Prog)
    requires row in progs && row.0 == b
    ensures row.1 in SubCodes(subs, progs, b)
    decreases |subs| + |progs|
  {
    if subs != [] {
      SubCodesHave(subs[1..], progs, b, row);
    } else if progs[0] != row {
      assert row in progs[1..];
      SubCodesHave(subs, progs[1..], b, row);
    }
  }

  /** All interfaces of a base come out under it, each as often as it was parsed. */
  lemma BaseCounts(b: nat, subs: seq<Sub>, progs: seq<Prog>, row: Prog)
    ensures Count(SubProgs(b, SubNodes(Codes(SubCodes(subs, progs, b)), b, subs, progs)), row)
      == if row.0 == b then Count(progs, row) else 0
  {
    var codes := Codes(SubCodes(subs, progs, b));
    CodesAscend(SubCodes(subs, progs, b));
    SubNodesCount(codes, b, subs, progs, row);
    CountMember(progs, row);
    if row in progs && row.0 == b {
      SubCodesHave(subs, progs, b, row);
    }
  }

  lemma {:induction false} ClassNodesCount(codes: seq<nat>, bases: seq<Base>, subs: seq<Sub>, progs: seq<Prog>, row: Prog)
    requires Ascending(codes)
    ensures Count(FlatProgs(ClassNodes(codes, bases, subs, progs)), row) == if row.0 in codes then Count(progs, row) else 0
  {
    if codes != [] {
      var b, rest := codes[0], ClassNodes(codes[1..], bases, subs, progs);
      ClassNodesCount(codes[1..], bases, subs, progs, row);
      BaseCounts(b, subs, progs, row);
      var name, subCodes := BaseName(bases, b), Codes(SubCodes(subs, progs, b));
      assert b !in codes[1..];
      assert row.0 in codes <==> row.0 == b || row.0 in codes[1..];
      if subCodes == [] && name == None {
        assert [] + rest == rest;
      } else {
        FlatProgsCons(ClassNode(b, name, SubNodes(subCodes, b, subs, progs)), rest, row);
      }
    }
  }

  lemma ProgCounts(bases: seq<Base>, subs: seq<Sub>, progs: seq<Prog>, row: Prog)
    ensures Count(FlatProgs(Classes(bases, subs, progs)), row) == Count(progs, row)
  {
    var all := BaseCodes(bases, subs, progs);
    CodesAscend(all);
    ClassNodesCount(Codes(all), bases, subs, progs, row);
    CountMember(progs, row);
    if row in progs {
      var k :| 0 <= k < |progs| && progs[k] == row;
      assert all[|bases| + |subs| + k] == row.0;
    }
  }

  /** Whatever was parsed, repeated or unnamed: the block holds every interface, each as often. */
  lemma ProgsConserved(bases: seq<Base>, subs: seq<Sub>, progs: seq<Prog>)
    ensures multiset(FlatProgs(Classes(bases, subs, progs))) == multiset(progs)
  {
    forall row: Prog
      ensures Count(FlatProgs(Classes(bases, subs, progs)), row) == Count(progs, row)
    {
      ProgCounts(bases, subs, progs, row);
    }
    SameCounts(FlatProgs(Classes(bases, subs, progs)), progs);
  }

  // --- Names survive ------------------------------------------------------------------------

  lemma {:induction false} NamedBase(codes: seq<nat>, bases: seq<Base>, subs: seq<Sub>, progs: seq<Prog>, b: nat) returns (n: ClassNode)
    requires b in codes && (BaseName(bases, b).Some? || Codes(SubCodes(subs, progs, b)) != [])
    ensures n in ClassNodes(codes, bases, subs, progs)
    ensures n == ClassNode(b, BaseName(bases, b), SubNodes(Codes(SubCodes(subs, progs, b)), b, subs, progs))
  {
    n := ClassNode(b, BaseName(bases, b), SubNodes(Codes(SubCodes(subs, progs, b)), b, subs, progs));
    if codes[0] != b {
      assert b in codes[1..];
      n := NamedBase(codes[1..], bases, subs, progs, b);
    }
  }

  lemma {:induction false} NamedSub(codes: seq<nat>, b: nat, subs: seq<Sub>, progs: seq<Prog>, s: nat) returns (n: SubNode)
    requires s in codes && SubName(subs, b, s).Some?
    ensures n in SubNodes(codes, b, subs, progs) && n.sub == s && n.name == SubName(subs, b, s)
  {
    n := SubNode(s, SubName(subs, b, s), SortPairs(Group(progs, b, s)));
    if codes[0] != s {
      assert s in codes[1..];
      n := NamedSub(codes[1..], b, subs, progs, s);
    }
  }

  lemma {:induction false} BaseNameIsParsed(bases: seq<Base>, b: nat) returns (k: nat)
    requires BaseName(bases, b).Some?
    ensures k < |bases| && bases[k] == (b, BaseName(bases, b).value)
  {
    k := |bases| - 1;
    if bases[k].0 != b {
      k := BaseNameIsParsed(bases[..k], b);
    }
  }

  /** A named base class comes out under its own code, with the last name it was given. */
  lemma BaseNamesSurvive(bases: seq<Base>, subs: seq<Sub>, progs: seq<Prog>, b: nat) returns (n: ClassNode)
    requires BaseName(bases, b).Some?
    ensures n in Classes(bases, subs, progs) && n.base == b && n.name == BaseName(bases, b)
  {
    var all := BaseCodes(bases, subs, progs);
    var k := BaseNameIsParsed(bases, b);
    assert all[k] == b;
    n := NamedBase(Codes(all), bases, subs, progs, b);
  }

  lemma {:induction false} SubCodesNamed(subs: seq<Sub>, progs: seq<Prog>, b: nat, s: nat, k: nat)
    requires k < |subs| && subs[k].0 == b && subs[k].1 == s
    ensures s in SubCodes(subs, progs, b)
  {
    if k > 0 {
      SubCodesNamed(subs[1..], progs, b, s, k - 1);
    }
  }

  lemma {:induction false} SubNameIsParsed(subs: seq<Sub>, b: nat, s: nat) returns (k: nat)
    requires SubName(subs, b, s).Some?
    ensures k < |subs| && subs[k] == (b, s, SubName(subs, b, s).value)
  {
    k := |subs| - 1;
    if !(subs[k].0 == b && subs[k].1 == s) {
      k := SubNameIsParsed(subs[..k], b, s);
    }
  }

  /** A named subclass comes out under its base, with the last name it was given. */
  lemma SubNamesSurvive(bases: seq<Base>, subs: seq<Sub>, progs: seq<Prog>, b: nat, s: nat) returns (n: ClassNode, m: SubNode)
    requires SubName(subs, b, s).Some?
    ensures n in Classes(bases, subs, progs) && n.base == b
    ensures m in n.subs && m.sub == s && m.name == SubName(subs, b, s)
  {
    var all, codes := BaseCodes(bases, subs, progs), Codes(SubCodes(subs, progs, b));
    var k := SubNameIsParsed(subs, b, s);
    assert all[|bases| + k] == b;
    SubCodesNamed(subs, progs, b, s, k);
    assert s in codes;
    n := NamedBase(Codes(all), bases, subs, progs, b);
    m := NamedSub(codes, b, subs, progs, s);
  }

  // --- The loops -----------------------------------------------------------------------------

  method EmitSubs(codes: seq<nat>, b: nat, subs: seq<Sub>, progs: seq<Prog>) returns (out: seq<SubNode>)
    ensures out == SubNodes(codes, b, subs, progs)
  {
    out := [];
    for i := 0 to |codes|
      invariant out + SubNodes(codes[i..], b, subs, progs) == SubNodes(codes, b, subs, progs)
    {
      SubNodesAt(codes, i, b, subs, progs, out);
      var name, group := SubName(subs, b, codes[i]), Group(progs, b, codes[i]);
      if group == [] {
        if name != None {
          out := out + [SubNode(codes[i], name, SortPairs(group))];
        }
        continue;
      }
      out := out + [SubNode(codes[i], name, SortPairs(group))];
    }
  }

  lemma SubNodesAt(codes: seq<nat>, i: nat, b: nat, subs: seq<Sub>, progs: seq<Prog>, out: seq<SubNode>)
    requires i < |codes|
    ensures var name, group := SubName(subs, b, codes[i]), Group(progs, b, codes[i]);
      out + SubNodes(codes[i..], b, subs, progs) ==
      (if group == [] && name == None then out else out + [SubNode(codes[i], name, SortPairs(group))])
      + SubNodes(codes[i + 1..], b, subs, progs)
  {
    assert codes[i..][1..] == codes[i + 1..];
  }

  /** `_emit_v2_classes_hierarchical`. */
  method EmitClasses(bases: seq<Base>, subs: seq<Sub>, progs: seq<Prog>) returns (out: seq<ClassNode>)
    ensures out == Classes(bases, subs, progs)
  {
    var codes := Codes(BaseCodes(bases, subs, progs));
    out := [];
    for i := 0 to |codes|
      invariant out + ClassNodes(codes[i..], bases, subs, progs) == Classes(bases, subs, progs)
    {
      ClassNodesAt(codes, i, bases, subs, progs, out);
      var name, subCodes := BaseName(bases, codes[i]), Codes(SubCodes(subs, progs, codes[i]));
      var nodes := EmitSubs(subCodes, codes[i], subs, progs);
      if subCodes == [] {
        if name != None {
          out := out + [ClassNode(codes[i], name, nodes)];
        }
        continue;
      }
      out := out + [ClassNode(codes[i], name, nodes)];
    }
  }

  lemma ClassNodesAt(codes: seq<nat>, i: nat, bases: seq<Base>, subs: seq<Sub>, progs: seq<Prog>, out: seq<ClassNode>)
    requires i < |codes|
    ensures var name, subCodes := BaseName(bases, codes[i]), Codes(SubCodes(subs, progs, codes[i]));
      out + ClassNodes(codes[i..], bases, subs, progs) ==
      (if subCodes == [] && name == None then out
       else out + [ClassNode(codes[i], name, SubNodes(subCodes, codes[i], subs, progs))])
      + ClassNodes(codes[i + 1..], bases, subs, progs)
  {
    assert codes[i..][1..] == codes[i + 1..];
  }
}
