/** What Python's `sorted` gives for a list of numbers. */
module Sorting {

  predicate Ascending(s: seq<real>) {
    forall i, j | 0 <= i < j < |s| :: s[i] <= s[j]
  }

  function Insert(x: real, s: seq<real>): seq<real> {
    if s == [] || x <= s[0] then [x] + s else [s[0]] + Insert(x, s[1..])
  }

  function Sorted(s: seq<real>): seq<real> {
    if s == [] then [] else Insert(s[0], Sorted(s[1..]))
  }

  lemma {:induction false} InsertAdds(x: real, s: seq<real>)
    ensures multiset(Insert(x, s)) == multiset(s) + multiset{x} && |Insert(x, s)| == |s| + 1
  {
    if s != [] && x > s[0] {
      InsertAdds(x, s[1..]);
      assert s == [s[0]] + s[1..];
    }
  }

  lemma PrependKeepsOrder(x: real, s: seq<real>)
    requires Ascending(s) && forall v | v in multiset(s) :: x <= v
    ensures Ascending([x] + s)
  {
    forall i, j | 0 <= i < j < |[x] + s| ensures ([x] + s)[i] <= ([x] + s)[j] {
      assert s[j - 1] in multiset(s);
    }
  }

  lemma {:induction false} InsertKeepsOrder(x: real, s: seq<real>)
    requires Ascending(s)
    ensures Ascending(Insert(x, s))
  {
    if s == [] || x <= s[0] {
      PrependKeepsOrder(x, s);
    } else {
      InsertKeepsOrder(x, s[1..]);
      InsertAdds(x, s[1..]);
      assert forall v | v in multiset(s[1..]) :: v in s[1..];
      PrependKeepsOrder(s[0], Insert(x, s[1..]));
    }
  }

  /** `sorted` rearranges its argument in ascending order. */
  lemma {:induction false} SortedIsAscending(s: seq<real>)
    ensures Ascending(Sorted(s)) && multiset(Sorted(s)) == multiset(s) && |Sorted(s)| == |s|
  {
    hide Insert, Ascending;
    if s == [] {
      NothingIsAscending();
    } else {
      SortedIsAscending(s[1..]);
      InsertKeepsOrder(s[0], Sorted(s[1..]));
      InsertAdds(s[0], Sorted(s[1..]));
      assert s == [s[0]] + s[1..];
    }
  }

  lemma NothingIsAscending()
    ensures Ascending([])
  {
  }

  lemma TailIsAscending(a: seq<real>)
    requires Ascending(a) && a != []
    ensures Ascending(a[1..])
  {
  }

  lemma FirstIsLeast(a: seq<real>, b: seq<real>)
    requires Ascending(a) && Ascending(b) && multiset(a) == multiset(b) && a != [] && b != []
    ensures a[0] == b[0]
  {
    assert a[0] in multiset(b) && b[0] in multiset(a);
  }

  /** An ascending rearrangement is the only one. */
  lemma {:induction false} AscendingIsUnique(a: seq<real>, b: seq<real>)
    requires Ascending(a) && Ascending(b) && multiset(a) == multiset(b)
    ensures a == b
  {
    assert |a| == |multiset(a)| == |multiset(b)| == |b|;
    if a != [] {
      FirstIsLeast(a, b);
      TailIsAscending(a);
      TailIsAscending(b);
      hide Ascending;
      assert a == [a[0]] + a[1..] && b == [b[0]] + b[1..];
      assert multiset(a[1..]) == multiset(a) - multiset{a[0]};
      assert multiset(b[1..]) == multiset(b) - multiset{b[0]};
      AscendingIsUnique(a[1..], b[1..]);
    }
  }

  /** So `sorted` of a rearranged list is the same list. */
  lemma SortedForgetsOrder(s: seq<real>, t: seq<real>)
    requires multiset(s) == multiset(t)
    ensures Sorted(s) == Sorted(t)
  {
    SortedIsAscending(s);
    SortedIsAscending(t);
    AscendingIsUnique(Sorted(s), Sorted(t));
  }

  lemma InBoth(s: seq<real>, v: real)
    ensures v in s <==> v in Sorted(s)
  {
    SortedIsAscending(s);
    assert v in s <==> v in multiset(s);
    assert v in Sorted(s) <==> v in multiset(Sorted(s));
  }

  // How many values lie below a bound

  function CountBelow(values: seq<real>, bound: real): nat {
    if values == [] then 0 else (if values[0] < bound then 1 else 0) + CountBelow(values[1..], bound)
  }

  lemma {:induction false} InsertCounts(x: real, s: seq<real>, bound: real)
    ensures CountBelow(Insert(x, s), bound) == CountBelow(s, bound) + if x < bound then 1 else 0
  {
    assert ([x] + s)[1..] == s;
    if s != [] && x > s[0] {
      InsertCounts(x, s[1..], bound);
      assert ([s[0]] + Insert(x, s[1..]))[1..] == Insert(x, s[1..]);
    }
  }

  lemma {:induction false} SortedCounts(s: seq<real>, bound: real)
    ensures CountBelow(Sorted(s), bound) == CountBelow(s, bound)
  {
    if s != [] {
      SortedCounts(s[1..], bound);
      InsertCounts(s[0], Sorted(s[1..]), bound);
    }
  }

  /** In ascending order the values below a bound are the first ones. */
  lemma {:induction false} BelowAreFirst(a: seq<real>, bound: real, i: nat)
    requires Ascending(a) && i < |a|
    ensures a[i] < bound <==> CountBelow(a, bound) > i
    decreases |a|
  {
    if i > 0 {
      assert a[0] <= a[i];
      BelowAreFirst(a[1..], bound, i - 1);
    } else if a[0] >= bound {
      NoneBelow(a, bound);
    }
  }

  lemma {:induction false} NoneBelow(a: seq<real>, bound: real)
    requires forall i | 0 <= i < |a| :: a[i] >= bound
    ensures CountBelow(a, bound) == 0
  {
    if a != [] {
      NoneBelow(a[1..], bound);
    }
  }

  lemma {:induction false} CountAtMost(a: seq<real>, bound: real)
    ensures CountBelow(a, bound) <= |a|
    ensures CountBelow(a, bound) == |a| <==> forall i | 0 <= i < |a| :: a[i] < bound
  {
    if a != [] {
      CountAtMost(a[1..], bound);
      assert forall i | 0 < i < |a| :: a[i] == a[1..][i - 1];
    }
  }
}
