/** A map's keys in order: slices.Sorted(maps.Keys(m)). */
module Ordered {
  import opened Bytes

  ghost function InOrder(s: set<Bytes>): seq<Bytes>
    decreases s
  {
    if s == {} then [] else
      var k :| k in s;
      Insert(k, InOrder(s - {k}))
  }

  lemma {:induction false} InOrderSorts(s: set<Bytes>)
    ensures Sorted(InOrder(s)) && multiset(InOrder(s)) == multiset(s)
    decreases s
  {
    if s != {} {
      var k :| k in s && InOrder(s) == Insert(k, InOrder(s - {k}));
      InOrderSorts(s - {k});
      InsertSorts(k, InOrder(s - {k}));
      assert multiset(s) == multiset(s - {k}) + multiset{k};
    }
  }

  lemma {:induction false} InOrderHolds(s: set<Bytes>)
    ensures forall k :: k in InOrder(s) <==> k in s
    ensures forall i, j :: 0 <= i < j < |InOrder(s)| ==> InOrder(s)[i] != InOrder(s)[j]
  {
    var r := InOrder(s);
    InOrderSorts(s);
    forall k ensures k in r <==> k in s {
      assert k in multiset(r) <==> k in multiset(s);
    }
    forall i, j | 0 <= i < j < |r| ensures r[i] != r[j] {
      Twice(r, i, j);
      assert multiset(r)[r[i]] <= 1;
    }
  }

  lemma Twice<T>(s: seq<T>, i: nat, j: nat)
    requires i < j < |s|
    ensures s[i] == s[j] ==> multiset(s)[s[i]] >= 2
  {
    assert s == s[..j] + [s[j]] + s[j + 1..];
    assert s[i] in s[..j];
    assert multiset(s) == multiset(s[..j]) + multiset{s[j]} + multiset(s[j + 1..]);
  }

  method SortedKeys(s: set<Bytes>) returns (r: seq<Bytes>)
    ensures r == InOrder(s)
  {
    r := [];
    var rest := s;
    while rest != {}
      invariant rest <= s && Sorted(r) && multiset(r) == multiset(s - rest)
      decreases rest
    {
      var k :| k in rest;
      InsertSorts(k, r);
      r, rest := Insert(k, r), rest - {k};
      assert s - rest == (s - rest - {k}) + {k};
    }
    assert s - rest == s;
    InOrderSorts(s);
    SortedUnique(r, InOrder(s));
  }
}
