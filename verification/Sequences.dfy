/** Sequences as the modules use them: what they range over, and repeats. */
module Sequences {
  ghost function Range<T>(s: seq<T>): (r: set<T>)
  {
    set x | x in s
  }

  ghost predicate NoRepeats(s: seq<nat>)
  {
    forall i, j :: 0 <= i < j < |s| ==> s[i] != s[j]
  }

  lemma NoRepeatsNext(s: seq<nat>, x: nat)
    requires NoRepeats(s) && x !in s
    ensures NoRepeats(s + [x])
  {
    forall i, j | 0 <= i < j < |s| + 1
      ensures (s + [x])[i] != (s + [x])[j]
    {
      assert s[i] in s;
    }
  }

  lemma Joined<T>(a: seq<T>, b: seq<T>, c: seq<T>)
    ensures a + (b + c) == a + b + c
  {
  }
}
