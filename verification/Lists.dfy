/** Sequences without repetitions. */
module Lists {

  ghost predicate Distinct(s: seq<int>)
  {
    forall i, j | 0 <= i < j < |s| :: s[i] != s[j]
  }

  lemma DistinctConcat(s: seq<int>, t: seq<int>)
    requires Distinct(s) && Distinct(t) && forall x {:trigger x in s} :: x in s ==> x !in t
    ensures Distinct(s + t)
    ensures forall x {:trigger x in s + t} :: x in s + t <==> x in s || x in t
  {
    forall i, j | 0 <= i < j < |s + t|
      ensures (s + t)[i] != (s + t)[j]
    {
      assert i < |s| <= j ==> s[i] in s && t[j - |s|] in t;
    }
  }

  /** The parts of a sequence without repetitions have none and share nothing. */
  lemma DistinctSplit(s: seq<int>, i: nat)
    requires Distinct(s) && i <= |s|
    ensures Distinct(s[..i]) && Distinct(s[i..])
    ensures forall x {:trigger x in s[..i]} {:trigger x in s[i..]} :: !(x in s[..i] && x in s[i..])
    ensures forall x {:trigger x in s} :: x in s <==> x in s[..i] || x in s[i..]
  {
    assert s == s[..i] + s[i..];
  }

  lemma {:induction false} SmallerSet<K>(a: set<K>, b: set<K>)
    requires a <= b
    ensures |a| <= |b|
    ensures |a| == |b| ==> a == b
    decreases a
  {
    if a == {} {
      assert |b| == 0 ==> b == {};
    } else {
      var x :| x in a;
      SmallerSet(a - {x}, b - {x});
      assert |a| == |b| ==> a == (a - {x}) + {x} == b;
    }
  }

  ghost function SetOf(s: seq<int>): set<int>
  {
    set x | x in s
  }

  lemma {:induction false} DistinctCounts(s: seq<int>)
    requires Distinct(s)
    ensures |SetOf(s)| == |s|
  {
    if s != [] {
      var n := |s| - 1;
      assert s == s[..n] + [s[n]];
      DistinctCounts(s[..n]);
      assert SetOf(s) == SetOf(s[..n]) + {s[n]};
    }
  }

  /** Among the members of a there is room for no more than |a|; if all places are
      taken, nothing is missing. */
  lemma DistinctFits(a: seq<int>, b: seq<int>)
    requires Distinct(a) && Distinct(b) && forall x {:trigger x in b} :: x in b ==> x in a
    ensures |b| <= |a|
    ensures |b| == |a| ==> forall x {:trigger x in a} :: x in a ==> x in b
  {
    DistinctCounts(a);
    DistinctCounts(b);
    SmallerSet(SetOf(b), SetOf(a));
    if |b| == |a| {
      forall x | x in a
        ensures x in b
      {
        assert x in SetOf(a) && SetOf(a) == SetOf(b);
      }
    }
  }

  function Without(list: seq<int>, x: int): seq<int>
  {
    if list == [] then [] else if list[0] == x then list[1..] else [list[0]] + Without(list[1..], x)
  }

  lemma {:induction false} WithoutRemoves(list: seq<int>, x: int)
    requires Distinct(list)
    ensures Distinct(Without(list, x))
    ensures forall y {:trigger y in Without(list, x)} :: y in Without(list, x) <==> y in list && y != x
  {
    if list != [] {
      assert list == [list[0]] + list[1..];
      assert forall y :: y in list[1..] ==> y != list[0];
      WithoutRemoves(list[1..], x);
      if list[0] != x {
        DistinctConcat([list[0]], Without(list[1..], x));
      }
    }
  }

  lemma Prepend(list: seq<int>, x: int)
    requires Distinct(list) && x !in list
    ensures Distinct([x] + list)
    ensures forall y {:trigger y in [x] + list} :: y in [x] + list <==> y == x || y in list
  {
    DistinctConcat([x], list);
  }
}
