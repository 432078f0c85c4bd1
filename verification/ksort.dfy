/**
 * `ksort` on the constants array: the entries reordered so that their labels
 * ascend, nothing added, nothing lost.
 */
module KeySort {
  import opened Types
  import opened LexOrder

  /** Labels ascend from left to right. */
  predicate SortedByLabel(cs: seq<Entry>) {
    forall i, j :: 0 <= i < j < |cs| ==> LexLeq(cs[i].name, cs[j].name)
  }

  /** Inserts `e` into the sorted `cs` at its place. */
  function Insert(e: Entry, cs: seq<Entry>): (r: seq<Entry>)
    requires SortedByLabel(cs)
    ensures SortedByLabel(r)
    ensures multiset(r) == multiset(cs) + multiset{e}
    ensures UniqueLabels(cs) && e.name !in Labels(cs) ==> UniqueLabels(r)
  {
    if |cs| == 0 then [e]
    else if LexLeq(e.name, cs[0].name) then
      InsertFirst(e, cs);
      [e] + cs
    else
      var rest := Insert(e, cs[1..]);
      InsertLater(e, cs, rest);
      [cs[0]] + rest
  }

  lemma InsertFirst(e: Entry, cs: seq<Entry>)
    requires SortedByLabel(cs) && |cs| > 0 && LexLeq(e.name, cs[0].name)
    ensures SortedByLabel([e] + cs)
    ensures UniqueLabels(cs) && e.name !in Labels(cs) ==> UniqueLabels([e] + cs)
  {
    var r := [e] + cs;
    forall i, j | 0 <= i < j < |r|
      ensures LexLeq(r[i].name, r[j].name)
    {
      if i == 0 && j > 1 {
        Transitive(e.name, cs[0].name, cs[j - 1].name);
      }
    }
    if UniqueLabels(cs) && e.name !in Labels(cs) {
      forall i, j | 0 <= i < j < |r|
        ensures r[i].name != r[j].name
      {
        if i == 0 {
          assert r[j] in cs;
        }
      }
    }
  }

  lemma InsertLater(e: Entry, cs: seq<Entry>, rest: seq<Entry>)
    requires SortedByLabel(cs) && |cs| > 0 && !LexLeq(e.name, cs[0].name)
    requires SortedByLabel(rest)
    requires multiset(rest) == multiset(cs[1..]) + multiset{e}
    requires UniqueLabels(cs[1..]) && e.name !in Labels(cs[1..]) ==> UniqueLabels(rest)
    ensures SortedByLabel([cs[0]] + rest)
    ensures multiset([cs[0]] + rest) == multiset(cs) + multiset{e}
    ensures UniqueLabels(cs) && e.name !in Labels(cs) ==> UniqueLabels([cs[0]] + rest)
  {
    assert cs == [cs[0]] + cs[1..];
    InsertLaterSorted(e, cs, rest);
    if UniqueLabels(cs) && e.name !in Labels(cs) {
      InsertLaterUnique(e, cs, rest);
    }
  }

  /** Every entry of `rest` is `e` or an entry of the tail of `cs`. */
  lemma FromTailOrNew(e: Entry, cs: seq<Entry>, rest: seq<Entry>, x: Entry)
    requires |cs| > 0
    requires multiset(rest) == multiset(cs[1..]) + multiset{e}
    requires x in rest
    ensures x == e || exists k :: 1 <= k < |cs| && cs[k] == x
  {
    assert x in multiset(rest);
    if x != e {
      assert x in multiset(cs[1..]);
      var k :| 0 <= k < |cs[1..]| && cs[1..][k] == x;
      assert cs[k + 1] == x;
    }
  }

  lemma InsertLaterSorted(e: Entry, cs: seq<Entry>, rest: seq<Entry>)
    requires SortedByLabel(cs) && |cs| > 0 && !LexLeq(e.name, cs[0].name)
    requires SortedByLabel(rest)
    requires multiset(rest) == multiset(cs[1..]) + multiset{e}
    ensures SortedByLabel([cs[0]] + rest)
  {
    Total(e.name, cs[0].name);
    var r := [cs[0]] + rest;
    forall x | x in rest
      ensures LexLeq(cs[0].name, x.name)
    {
      FromTailOrNew(e, cs, rest, x);
    }
    forall i, j | 0 <= i < j < |r|
      ensures LexLeq(r[i].name, r[j].name)
    {
      if i == 0 {
        assert r[j] in rest;
      }
    }
  }

  lemma InsertLaterUnique(e: Entry, cs: seq<Entry>, rest: seq<Entry>)
    requires SortedByLabel(cs) && |cs| > 0
    requires multiset(rest) == multiset(cs[1..]) + multiset{e}
    requires UniqueLabels(cs[1..]) && e.name !in Labels(cs[1..]) ==> UniqueLabels(rest)
    requires UniqueLabels(cs) && e.name !in Labels(cs)
    ensures UniqueLabels([cs[0]] + rest)
  {
    var r := [cs[0]] + rest;
    TailUnique(cs);
    assert e.name !in Labels(cs[1..]) by {
      forall x | x in cs[1..]
        ensures x.name != e.name
      {
        assert x in cs;
      }
    }
    forall i, j | 0 <= i < j < |r|
      ensures r[i].name != r[j].name
    {
      if i == 0 {
        assert r[j] in rest;
        FromTailOrNew(e, cs, rest, r[j]);
        assert cs[0] in cs;
      }
    }
  }

  lemma TailUnique(cs: seq<Entry>)
    requires |cs| > 0 && UniqueLabels(cs)
    ensures UniqueLabels(cs[1..])
    ensures cs[0].name !in Labels(cs[1..])
  {
    var tail := cs[1..];
    forall i, j | 0 <= i < j < |tail|
      ensures tail[i].name != tail[j].name
    {
      assert tail[i] == cs[i + 1] && tail[j] == cs[j + 1];
    }
    forall x | x in tail
      ensures x.name != cs[0].name
    {
      var k :| 0 <= k < |tail| && tail[k] == x;
      assert cs[k + 1] == x;
    }
  }

  /** `ksort`: the entries in ascending label order, a permutation of the
   *  input. */
  function KSort(cs: seq<Entry>): (r: seq<Entry>)
    ensures SortedByLabel(r)
    ensures multiset(r) == multiset(cs)
    ensures |r| == |cs|
  {
    if |cs| == 0 then []
    else
      assert cs == [cs[0]] + cs[1..];
      Insert(cs[0], KSort(cs[1..]))
  }

  /** Sorting keeps the set of labels, and keeps them unique; the labels of a
   *  map then strictly ascend. */
  lemma KSortKeepsLabels(cs: seq<Entry>)
    ensures Labels(KSort(cs)) == Labels(cs)
    ensures UniqueLabels(cs) ==> UniqueLabels(KSort(cs))
  {
    var r := KSort(cs);
    forall x
      ensures x in r <==> x in cs
    {
      assert x in r <==> x in multiset(r);
      assert x in cs <==> x in multiset(cs);
    }
    if UniqueLabels(cs) {
      KSortUnique(cs);
    }
  }

  /** Two entries out of order are swapped. */
  lemma KSortPair(a: Entry, b: Entry)
    requires !LexLeq(a.name, b.name)
    ensures KSort([a, b]) == [b, a]
  {
    assert [a, b][1..] == [b];
    assert KSort([b]) == [b];
  }

  /** Sorting neither adds nor drops an entry. */
  lemma KSortMembers(cs: seq<Entry>)
    ensures forall e :: e in KSort(cs) <==> e in cs
  {
    var r := KSort(cs);
    forall e
      ensures e in r <==> e in cs
    {
      assert e in r <==> e in multiset(r);
      assert e in cs <==> e in multiset(cs);
    }
  }

  lemma {:induction false} KSortUnique(cs: seq<Entry>)
    requires UniqueLabels(cs)
    ensures UniqueLabels(KSort(cs))
  {
    if |cs| > 0 {
      var tail := cs[1..];
      TailUnique(cs);
      KSortUnique(tail);
      var sorted := KSort(tail);
      forall x | x in sorted
        ensures x.name != cs[0].name
      {
        assert x in multiset(sorted);
        assert x in tail;
      }
    }
  }
}
