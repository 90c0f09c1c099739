/**
  The classes block of scripts/pci-ids-to-json5.py by what it holds: which
  classes, in which order, under which names, with which interfaces.
 */
module ClassBlock {
  import opened Outcomes
  import opened Counting
  import opened PyText
  import opened ClassEmit

  // --- What a block should hold -----------------------------------------------------------

  ghost predicate BaseNamed(bases: seq<Base>, b: nat, name: string)
  {
    exists k :: 0 <= k < |bases| && bases[k] == (b, name) && NoBaseAfter(bases, b, k)
  }

  ghost predicate NoBaseAfter(bases: seq<Base>, b: nat, k: int)
  {
    forall j :: k < j < |bases| && 0 <= j ==> bases[j].0 != b
  }

  ghost predicate SubNamed(subs: seq<Sub>, b: nat, s: nat, name: string)
  {
    exists k :: 0 <= k < |subs| && subs[k] == (b, s, name) && NoSubAfter(subs, b, s, k)
  }

  ghost predicate NoSubAfter(subs: seq<Sub>, b: nat, s: nat, k: int)
  {
    forall j :: k < j < |subs| && 0 <= j ==> subs[j].0 != b || subs[j].1 != s
  }

  /** Base `b` occurs among the parsed rows. */
  ghost predicate BaseOccurs(bases: seq<Base>, subs: seq<Sub>, progs: seq<Prog>, b: nat)
  {
    || (exists k :: 0 <= k < |bases| && bases[k].0 == b)
    || (exists k :: 0 <= k < |subs| && subs[k].0 == b)
    || (exists k :: 0 <= k < |progs| && progs[k].0 == b)
  }

  ghost predicate SubOccurs(subs: seq<Sub>, progs: seq<Prog>, b: nat, s: nat)
  {
    || (exists k :: 0 <= k < |subs| && subs[k].0 == b && subs[k].1 == s)
    || (exists k :: 0 <= k < |progs| && progs[k].0 == b && progs[k].1 == s)
  }

  /** By number, then by name. */
  ghost predicate PairsAscend(list: seq<(nat, string)>)
  {
    forall i, j :: 0 <= i < j < |list| ==> list[i].0 < list[j].0 || (list[i].0 == list[j].0 && StringLeq(list[i].1, list[j].1))
  }

  /** A subclass: its last name, if it has one, and its interfaces, sorted. */
  ghost predicate IsSubNode(m: SubNode, subs: seq<Sub>, progs: seq<Prog>, b: nat)
  {
    && (m.name == None <==> NoSubAfter(subs, b, m.sub, -1)) && (m.name.Some? ==> SubNamed(subs, b, m.sub, m.name.value))
    && PairsAscend(m.progs) && forall p: (nat, string) :: Count(m.progs, p) == Count(progs, (b, m.sub, p.0, p.1))
  }

  /** A base class: its last name, if it has one, and its subclasses by code, each once, those that occur and no others. */
  ghost predicate IsClassNode(n: ClassNode, bases: seq<Base>, subs: seq<Sub>, progs: seq<Prog>)
  {
    && (n.name == None <==> NoBaseAfter(bases, n.base, -1)) && (n.name.Some? ==> BaseNamed(bases, n.base, n.name.value))
    && (forall i, j :: 0 <= i < j < |n.subs| ==> n.subs[i].sub < n.subs[j].sub)
    && (forall s: nat :: SubOccurs(subs, progs, n.base, s) <==> exists i :: 0 <= i < |n.subs| && n.subs[i].sub == s)
    && (forall i :: 0 <= i < |n.subs| ==> IsSubNode(n.subs[i], subs, progs, n.base))
  }

  ghost predicate IsBlock(nodes: seq<ClassNode>, bases: seq<Base>, subs: seq<Sub>, progs: seq<Prog>)
  {
    && (forall i, j :: 0 <= i < j < |nodes| ==> nodes[i].base < nodes[j].base)
    && (forall b: nat :: BaseOccurs(bases, subs, progs, b) <==> exists i :: 0 <= i < |nodes| && nodes[i].base == b)
    && (forall i :: 0 <= i < |nodes| ==> IsClassNode(nodes[i], bases, subs, progs))
  }

  // --- Names -----------------------------------------------------------------------------------

  lemma {:induction false} BaseNameIs(bases: seq<Base>, b: nat)
    ensures BaseName(bases, b) == None <==> NoBaseAfter(bases, b, -1)
    ensures BaseName(bases, b).Some? ==> BaseNamed(bases, b, BaseName(bases, b).value)
  {
    if bases != [] {
      var n := |bases| - 1;
      BaseNameIs(bases[..n], b);
      if bases[n].0 == b {
        assert bases[n] == (b, bases[n].1) && NoBaseAfter(bases, b, n);
      } else if BaseName(bases, b).Some? {
        var k :| 0 <= k < n && bases[..n][k] == (b, BaseName(bases, b).value) && NoBaseAfter(bases[..n], b, k);
        assert NoBaseAfter(bases, b, k);
      }
    }
  }

  lemma {:induction false} SubNameIs(subs: seq<Sub>, b: nat, s: nat)
    ensures SubName(subs, b, s) == None <==> NoSubAfter(subs, b, s, -1)
    ensures SubName(subs, b, s).Some? ==> SubNamed(subs, b, s, SubName(subs, b, s).value)
  {
    if subs != [] {
      var n := |subs| - 1;
      SubNameIs(subs[..n], b, s);
      if subs[n].0 == b && subs[n].1 == s {
        assert subs[n] == (b, s, subs[n].2) && NoSubAfter(subs, b, s, n);
      } else if SubName(subs, b, s).Some? {
        var k :| 0 <= k < n && subs[..n][k] == (b, s, SubName(subs, b, s).value) && NoSubAfter(subs[..n], b, s, k);
        assert NoSubAfter(subs, b, s, k);
      }
    }
  }

  // --- Interfaces --------------------------------------------------------------------------------

  lemma PairLeqTotal(x: (nat, string), y: (nat, string))
    ensures PairLeq(x, y) || PairLeq(y, x)
  {
    StringLeqTotal(x.1, y.1);
  }

  lemma PairLeqTransitive(x: (nat, string), y: (nat, string), z: (nat, string))
    requires PairLeq(x, y) && PairLeq(y, z)
    ensures PairLeq(x, z)
  {
    if x.0 == y.0 == z.0 {
      StringLeqTransitive(x.1, y.1, z.1);
    }
  }

  lemma {:induction false} InsertPairMembers(x: (nat, string), list: seq<(nat, string)>, y: (nat, string))
    ensures y in InsertPair(x, list) <==> y == x || y in list
  {
    if list != [] && !PairLeq(x, list[0]) {
      InsertPairMembers(x, list[1..], y);
    }
  }

  lemma {:induction false} InsertPairAscends(x: (nat, string), list: seq<(nat, string)>)
    requires PairsAscend(list)
    ensures PairsAscend(InsertPair(x, list))
  {
    if list != [] {
      if PairLeq(x, list[0]) {
        forall j | 0 <= j < |list|
          ensures PairLeq(x, list[j])
        {
          if j > 0 {
            PairLeqTransitive(x, list[0], list[j]);
          }
        }
      } else {
        var rest := InsertPair(x, list[1..]);
        PairLeqTotal(x, list[0]);
        InsertPairAscends(x, list[1..]);
        forall j | 0 <= j < |rest|
          ensures PairLeq(list[0], rest[j])
        {
          InsertPairMembers(x, list[1..], rest[j]);
        }
      }
    }
  }

  lemma {:induction false} SortPairsAscend(list: seq<(nat, string)>)
    ensures PairsAscend(SortPairs(list))
  {
    if list != [] {
      SortPairsAscend(list[1..]);
      InsertPairAscends(list[0], SortPairs(list[1..]));
    }
  }

  lemma ProgsAre(progs: seq<Prog>, b: nat, s: nat)
    ensures PairsAscend(SortPairs(Group(progs, b, s)))
    ensures forall p: (nat, string) :: Count(SortPairs(Group(progs, b, s)), p) == Count(progs, (b, s, p.0, p.1))
  {
    SortPairsAscend(Group(progs, b, s));
    forall p: (nat, string)
      ensures Count(SortPairs(Group(progs, b, s)), p) == Count(progs, (b, s, p.0, p.1))
    {
      SortPairsCounts(Group(progs, b, s), p);
      GroupCounts(progs, (b, s, p.0, p.1));
    }
  }

  lemma {:induction false} GroupIsEmptyIff(progs: seq<Prog>, b: nat, s: nat)
    ensures Group(progs, b, s) == [] <==> forall k :: 0 <= k < |progs| ==> progs[k].0 != b || progs[k].1 != s
  {
    if progs != [] {
      GroupIsEmptyIff(progs[..|progs| - 1], b, s);
    }
  }

  // --- Codes ---------------------------------------------------------------------------------------

  lemma {:induction false} SubCodesAre(subs: seq<Sub>, progs: seq<Prog>, b: nat, s: nat)
    ensures s in SubCodes(subs, progs, b) <==> SubOccurs(subs, progs, b, s)
    decreases |subs| + |progs|
  {
    if subs != [] {
      SubCodesAre(subs[1..], progs, b, s);
      SubOccursCons(subs, progs, b, s);
    } else if progs != [] {
      SubCodesAre(subs, progs[1..], b, s);
      ProgOccursCons(progs, b, s);
    }
  }

  lemma SubOccursCons(subs: seq<Sub>, progs: seq<Prog>, b: nat, s: nat)
    requires subs != []
    ensures SubOccurs(subs, progs, b, s) <==> (subs[0].0 == b && subs[0].1 == s) || SubOccurs(subs[1..], progs, b, s)
  {
    if k :| 0 <= k < |subs| && subs[k].0 == b && subs[k].1 == s {
      assert k > 0 ==> subs[1..][k - 1] == subs[k];
    }
    if k :| 0 <= k < |subs[1..]| && subs[1..][k].0 == b && subs[1..][k].1 == s {
      assert subs[k + 1] == subs[1..][k];
    }
  }

  lemma ProgOccursCons(progs: seq<Prog>, b: nat, s: nat)
    requires progs != []
    ensures SubOccurs([], progs, b, s) <==> (progs[0].0 == b && progs[0].1 == s) || SubOccurs([], progs[1..], b, s)
  {
    if k :| 0 <= k < |progs| && progs[k].0 == b && progs[k].1 == s {
      assert k > 0 ==> progs[1..][k - 1] == progs[k];
    }
    if k :| 0 <= k < |progs[1..]| && progs[1..][k].0 == b && progs[1..][k].1 == s {
      assert progs[k + 1] == progs[1..][k];
    }
  }

  lemma BaseCodesAre(bases: seq<Base>, subs: seq<Sub>, progs: seq<Prog>, b: nat)
    ensures b in BaseCodes(bases, subs, progs) <==> BaseOccurs(bases, subs, progs, b)
  {
    var all, n, m := BaseCodes(bases, subs, progs), |bases|, |subs|;
    if k :| 0 <= k < |all| && all[k] == b {
      assert k < n ==> bases[k].0 == b;
      assert n <= k < n + m ==> subs[k - n].0 == b;
      assert n + m <= k ==> progs[k - n - m].0 == b;
    }
    if k :| 0 <= k < |bases| && bases[k].0 == b {
      assert all[k] == b;
    }
    if k :| 0 <= k < |subs| && subs[k].0 == b {
      assert all[n + k] == b;
    }
    if k :| 0 <= k < |progs| && progs[k].0 == b {
      assert all[n + m + k] == b;
    }
  }

  // --- Nodes -----------------------------------------------------------------------------------------

  function SubNodeOf(s: nat, b: nat, subs: seq<Sub>, progs: seq<Prog>): SubNode
  {
    SubNode(s, SubName(subs, b, s), SortPairs(Group(progs, b, s)))
  }

  /** Every subclass that occurs has a name or interfaces, so none is left out. */
  lemma {:induction false} SubNodesAre(codes: seq<nat>, b: nat, subs: seq<Sub>, progs: seq<Prog>)
    requires forall k :: 0 <= k < |codes| ==> SubOccurs(subs, progs, b, codes[k])
    ensures |SubNodes(codes, b, subs, progs)| == |codes|
    ensures forall k :: 0 <= k < |codes| ==> SubNodes(codes, b, subs, progs)[k] == SubNodeOf(codes[k], b, subs, progs)
  {
    if codes != [] {
      assert SubOccurs(subs, progs, b, codes[0]);
      SubNameIs(subs, b, codes[0]);
      GroupIsEmptyIff(progs, b, codes[0]);
      assert !(Group(progs, b, codes[0]) == [] && SubName(subs, b, codes[0]) == None);
      SubNodesAre(codes[1..], b, subs, progs);
    }
  }

  lemma SubNodeIs(s: nat, b: nat, subs: seq<Sub>, progs: seq<Prog>)
    ensures IsSubNode(SubNodeOf(s, b, subs, progs), subs, progs, b)
  {
    SubNameIs(subs, b, s);
    ProgsAre(progs, b, s);
  }

  function ClassNodeOf(b: nat, bases: seq<Base>, subs: seq<Sub>, progs: seq<Prog>): ClassNode
  {
    ClassNode(b, BaseName(bases, b), SubNodes(Codes(SubCodes(subs, progs, b)), b, subs, progs))
  }

  lemma ClassNodeIs(b: nat, bases: seq<Base>, subs: seq<Sub>, progs: seq<Prog>)
    ensures IsClassNode(ClassNodeOf(b, bases, subs, progs), bases, subs, progs)
  {
    var codes := Codes(SubCodes(subs, progs, b));
    CodesAscend(SubCodes(subs, progs, b));
    forall s: nat
      ensures s in codes <==> SubOccurs(subs, progs, b, s)
    {
      SubCodesAre(subs, progs, b, s);
    }
    SubNodesAre(codes, b, subs, progs);
    SubNodesHold(codes, b, subs, progs);
    BaseNameIs(bases, b);
  }

  lemma SubNodesHold(codes: seq<nat>, b: nat, subs: seq<Sub>, progs: seq<Prog>)
    requires Ascending(codes) && |SubNodes(codes, b, subs, progs)| == |codes|
    requires forall s: nat :: s in codes <==> SubOccurs(subs, progs, b, s)
    requires forall k :: 0 <= k < |codes| ==> SubNodes(codes, b, subs, progs)[k] == SubNodeOf(codes[k], b, subs, progs)
    ensures var nodes := SubNodes(codes, b, subs, progs);
      && (forall i, j :: 0 <= i < j < |nodes| ==> nodes[i].sub < nodes[j].sub)
      && (forall s: nat :: SubOccurs(subs, progs, b, s) <==> exists i :: 0 <= i < |nodes| && nodes[i].sub == s)
      && (forall i :: 0 <= i < |nodes| ==> IsSubNode(nodes[i], subs, progs, b))
  {
    var nodes := SubNodes(codes, b, subs, progs);
    forall i | 0 <= i < |nodes|
      ensures nodes[i].sub == codes[i] && IsSubNode(nodes[i], subs, progs, b)
    {
      SubNodeIs(codes[i], b, subs, progs);
    }
    forall s: nat
      ensures SubOccurs(subs, progs, b, s) <==> exists i :: 0 <= i < |nodes| && nodes[i].sub == s
    {
      if s in codes {
        var i :| 0 <= i < |codes| && codes[i] == s;
        assert nodes[i].sub == s;
      }
      if i :| 0 <= i < |nodes| && nodes[i].sub == s {
        assert codes[i] in codes;
      }
    }
  }

  lemma {:induction false} ClassNodesAre(codes: seq<nat>, bases: seq<Base>, subs: seq<Sub>, progs: seq<Prog>)
    requires forall k :: 0 <= k < |codes| ==> BaseOccurs(bases, subs, progs, codes[k])
    ensures |ClassNodes(codes, bases, subs, progs)| == |codes|
    ensures forall k :: 0 <= k < |codes| ==> ClassNodes(codes, bases, subs, progs)[k] == ClassNodeOf(codes[k], bases, subs, progs)
  {
    if codes != [] {
      NothingLeftOut(codes[0], bases, subs, progs);
      ClassNodesAre(codes[1..], bases, subs, progs);
    }
  }

  lemma NothingLeftOut(b: nat, bases: seq<Base>, subs: seq<Sub>, progs: seq<Prog>)
    requires BaseOccurs(bases, subs, progs, b)
    ensures Codes(SubCodes(subs, progs, b)) != [] || BaseName(bases, b).Some?
  {
    BaseNameIs(bases, b);
    if k :| 0 <= k < |subs| && subs[k].0 == b {
      SubCodesAre(subs, progs, b, subs[k].1);
      assert subs[k].1 in Codes(SubCodes(subs, progs, b));
    } else if k :| 0 <= k < |progs| && progs[k].0 == b {
      SubCodesAre(subs, progs, b, progs[k].1);
      assert progs[k].1 in Codes(SubCodes(subs, progs, b));
    }
  }

  /** The classes block of any parsed rows is what it should be. */
  lemma ClassesAre(bases: seq<Base>, subs: seq<Sub>, progs: seq<Prog>)
    ensures IsBlock(Classes(bases, subs, progs), bases, subs, progs)
  {
    var all := BaseCodes(bases, subs, progs);
    var codes, nodes := Codes(all), Classes(bases, subs, progs);
    CodesAscend(all);
    forall b: nat
      ensures b in codes <==> BaseOccurs(bases, subs, progs, b)
    {
      BaseCodesAre(bases, subs, progs, b);
    }
    ClassNodesAre(codes, bases, subs, progs);
    forall i | 0 <= i < |nodes|
      ensures nodes[i].base == codes[i] && IsClassNode(nodes[i], bases, subs, progs)
    {
      ClassNodeIs(codes[i], bases, subs, progs);
    }
    forall b: nat
      ensures BaseOccurs(bases, subs, progs, b) <==> exists i :: 0 <= i < |nodes| && nodes[i].base == b
    {
      if b in codes {
        var i :| 0 <= i < |codes| && codes[i] == b;
        assert nodes[i].base == b;
      }
      if i :| 0 <= i < |nodes| && nodes[i].base == b {
        assert codes[i] in codes;
      }
    }
  }
}
