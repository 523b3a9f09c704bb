/**
 * The port filter of the best-master-clock selection: sort the candidate
 * ports by grandmaster clock class, then keep only those that share the
 * best (lowest) class.
 */
module Bmca {

  datatype BmcaPort = BmcaPort(gmClockClass: int, configName: string)

  // The sort keys SortAndFilter may be given; only the first one is handled.
  const GmClockClass: string := "GmClockClass"
  const GmClockAccuracy: string := "GmClockAccuracy"
  const GmOffsetScaledLogVariance: string := "GmOffsetScaledLogVariance"
  const GmPriority2: string := "GmPriority2"
  const GmClockIdentity: string := "GmClockIdentity"
  const SenderPortIdentity: string := "SenderPortIdentity"
  const StepsRemoved: string := "StepsRemoved"
  const ReceiverPortIdentity: string := "ReceiverPortIdentity"
  const ReceiverPortNumber: string := "ReceiverPortNumber"
  const LocalPriority: string := "LocalPriority"

  predicate SortedByClass(s: seq<BmcaPort>) {
    forall i, j :: 0 <= i < j < |s| ==> s[i].gmClockClass <= s[j].gmClockClass
  }

  /** The lowest clock class among the ports. */
  function MinClass(s: seq<BmcaPort>): (c: int)
    requires s != []
    ensures exists i :: 0 <= i < |s| && s[i].gmClockClass == c
    ensures forall i :: 0 <= i < |s| ==> c <= s[i].gmClockClass
  {
    if |s| == 1 then s[0].gmClockClass
    else
      var rest := MinClass(s[1..]);
      if s[0].gmClockClass <= rest then s[0].gmClockClass else rest
  }

  /** The ports of class `c`, in their order. */
  function FilterClass(s: seq<BmcaPort>, c: int): seq<BmcaPort> {
    if s == [] then []
    else (if s[0].gmClockClass == c then [s[0]] else []) + FilterClass(s[1..], c)
  }

  /**
   * What SortAndFilter on GmClockClass returns for `input`: ports sorted by class
   * that are exactly the input's ports of the lowest class, each as often as in
   * the input (in an order the unstable sort leaves open).
   */
  predicate KeepsMinClass(input: seq<BmcaPort>, r: seq<BmcaPort>) {
    SortedByClass(r)
    && (input == [] ==> r == [])
    && (input != [] ==> multiset(r) == multiset(FilterClass(input, MinClass(input))))
  }

  /** The filtered multiset holds each port of class `c` as often as the input and no other port. */
  lemma {:induction false} FilterCounts(s: seq<BmcaPort>, c: int)
    ensures forall p :: multiset(FilterClass(s, c))[p] == if p.gmClockClass == c then multiset(s)[p] else 0
    decreases |s|
  {
    if s != [] {
      FilterCounts(s[1..], c);
      assert s == [s[0]] + s[1..];
      assert multiset(s) == multiset{s[0]} + multiset(s[1..]);
    }
  }

  /** Two permutations of each other filter to permutations of each other. */
  lemma {:induction false} FilterPermutation(s: seq<BmcaPort>, t: seq<BmcaPort>, c: int)
    requires multiset(s) == multiset(t)
    ensures multiset(FilterClass(s, c)) == multiset(FilterClass(t, c))
  {
    FilterCounts(s, c);
    FilterCounts(t, c);
  }

  /** Permuted ports have the same lowest class. */
  lemma {:induction false} MinClassPermutation(s: seq<BmcaPort>, t: seq<BmcaPort>)
    requires s != [] && multiset(s) == multiset(t)
    ensures t != [] && MinClass(s) == MinClass(t)
  {
    var i :| 0 <= i < |s| && s[i].gmClockClass == MinClass(s);
    assert s[i] in multiset(s);
    var j :| 0 <= j < |t| && t[j].gmClockClass == MinClass(t);
    assert t[j] in multiset(t);
    assert s[i] in t && t[j] in s;
  }

  /** Every returned port has the lowest class; the output has as many ports as the input has of that class and is a sub-multiset of it. */
  lemma {:induction false} KeepsMinClassMeaning(input: seq<BmcaPort>, r: seq<BmcaPort>)
    requires input != [] && KeepsMinClass(input, r)
    ensures forall p :: p in r ==> p in input && p.gmClockClass == MinClass(input)
    ensures |r| == |FilterClass(input, MinClass(input))|
    ensures multiset(r) <= multiset(input)
    ensures forall p :: p in input && p.gmClockClass == MinClass(input) ==> p in r
  {
    var c := MinClass(input);
    FilterCounts(input, c);
    forall p | p in r
      ensures p in input && p.gmClockClass == c
    {
      assert p in multiset(FilterClass(input, c));
    }
    assert |multiset(r)| == |multiset(FilterClass(input, c))|;
    forall p | p in input && p.gmClockClass == c
      ensures p in r
    {
      assert multiset(input)[p] > 0;
      assert multiset(r)[p] > 0;
    }
  }

  /** The first of sorted ports has the lowest class. */
  lemma {:induction false} MinOfSorted(s: seq<BmcaPort>)
    requires s != [] && SortedByClass(s)
    ensures MinClass(s) == s[0].gmClockClass
  {
    assert forall i :: 0 <= i < |s| ==> s[0].gmClockClass <= s[i].gmClockClass;
  }

  /** Ports whose class is `c` exactly before index `n` filter to their first `n`. */
  lemma {:induction false} FilterRun(s: seq<BmcaPort>, c: int, n: nat)
    requires n <= |s|
    requires forall i :: 0 <= i < |s| ==> (s[i].gmClockClass == c <==> i < n)
    ensures FilterClass(s, c) == s[..n]
    decreases |s|
  {
    if s != [] {
      var m := if n == 0 then 0 else n - 1;
      assert forall i :: 0 <= i < |s| - 1 ==> s[1..][i] == s[i + 1];
      FilterRun(s[1..], c, m);
      if n > 0 {
        assert s[..n] == [s[0]] + s[1..][..m];
      }
    }
  }

  /**
   * Sorted ports cut at the first port whose class is above that of the first
   * port: the part before the cut is exactly the ports of the lowest class.
   */
  lemma {:induction false} FilterSortedPrefix(s: seq<BmcaPort>, n: nat)
    requires SortedByClass(s) && s != [] && n <= |s|
    requires forall i :: 0 <= i < n ==> s[i].gmClockClass <= s[0].gmClockClass
    requires n < |s| ==> s[n].gmClockClass > s[0].gmClockClass
    ensures FilterClass(s, s[0].gmClockClass) == s[..n]
  {
    var c := s[0].gmClockClass;
    assert forall i :: 0 <= i < |s| ==> (s[i].gmClockClass == c <==> i < n) by {
      assert forall i :: 0 <= i < |s| ==> c <= s[i].gmClockClass;
      assert forall i :: n <= i < |s| ==> s[n].gmClockClass <= s[i].gmClockClass;
    }
    FilterRun(s, c, n);
  }

  /** A prefix of sorted ports is sorted. */
  lemma {:induction false} SortedPrefix(s: seq<BmcaPort>, n: nat)
    requires SortedByClass(s) && n <= |s|
    ensures SortedByClass(s[..n])
  {
    assert forall i :: 0 <= i < n ==> s[..n][i] == s[i];
  }

  /**
   * A sorted permutation of the input, cut at the first port whose class is above
   * that of its first port, is what KeepsMinClass asks for.
   */
  lemma {:induction false} SortedPrefixKeepsMinClass(input: seq<BmcaPort>, s: seq<BmcaPort>, n: nat)
    requires multiset(input) == multiset(s) && SortedByClass(s) && s != []
    requires n <= |s|
    requires forall i :: 0 <= i < n ==> s[i].gmClockClass <= s[0].gmClockClass
    requires n < |s| ==> s[n].gmClockClass > s[0].gmClockClass
    ensures input != [] && KeepsMinClass(input, s[..n])
  {
    MinOfSorted(s);
    MinClassPermutation(s, input);
    SortedPrefix(s, n);
    FilterSortedPrefix(s, n);
    FilterPermutation(input, s, s[0].gmClockClass);
  }

  /** The ports of the repository's test: classes 165, 254, 254, 165. */
  function TestPorts(): seq<BmcaPort> {
    [BmcaPort(165, ""), BmcaPort(254, ""), BmcaPort(254, ""), BmcaPort(165, "")]
  }

  lemma TestPortsLowest()
    ensures MinClass(TestPorts()) == 165
    ensures FilterClass(TestPorts(), 165) == [BmcaPort(165, ""), BmcaPort(165, "")]
  {
    var p, q := BmcaPort(165, ""), BmcaPort(254, "");
    assert TestPorts()[1..] == [q, q, p] && [q, q, p][1..] == [q, p] && [q, p][1..] == [p];
  }

  /** The test of the repository: its four ports reduce to the two ports of class 165. */
  lemma {:induction false} ExampleFromTest(r: seq<BmcaPort>)
    requires KeepsMinClass(TestPorts(), r)
    ensures r == [BmcaPort(165, ""), BmcaPort(165, "")]
  {
    var p := BmcaPort(165, "");
    TestPortsLowest();
    assert multiset(r) == multiset{p, p};
    TwoCopies(r, p);
  }

  /** The only sequence holding p twice and nothing else is [p, p]. */
  lemma {:induction false} TwoCopies(r: seq<BmcaPort>, p: BmcaPort)
    requires multiset(r) == multiset{p, p}
    ensures r == [p, p]
  {
    assert |r| == 2 by {
      assert |multiset(r)| == 2;
    }
    assert r[0] in multiset(r) && r[1] in multiset(r);
    assert r == [r[0], r[1]];
  }

  /** Exchanges two ports of the array. */
  method Swap(a: array<BmcaPort>, i: nat, j: nat)
    requires i < a.Length && j < a.Length
    modifies a
    ensures a[..] == old(a[..])[i := old(a[j])][j := old(a[i])]
    ensures multiset(a[..]) == old(multiset(a[..]))
  {
    a[i], a[j] := a[j], a[i];
  }

  /** sort.Slice by clock class: afterwards the ports are sorted and a permutation of what they were. */
  method SortByClass(a: array<BmcaPort>)
    modifies a
    ensures SortedByClass(a[..])
    ensures multiset(a[..]) == old(multiset(a[..]))
  {
    var i := 0;
    while i < a.Length
      invariant 0 <= i <= a.Length
      invariant forall k, m :: 0 <= k < m < i ==> a[k].gmClockClass <= a[m].gmClockClass
      invariant multiset(a[..]) == old(multiset(a[..]))
    {
      var j := i;
      while j > 0 && a[j - 1].gmClockClass > a[j].gmClockClass
        invariant 0 <= j <= i
        invariant forall k, m :: 0 <= k < m <= i && m != j ==> a[k].gmClockClass <= a[m].gmClockClass
        invariant forall m :: j < m <= i ==> a[j].gmClockClass <= a[m].gmClockClass
        invariant multiset(a[..]) == old(multiset(a[..]))
      {
        Swap(a, j - 1, j);
        j := j - 1;
      }
      i := i + 1;
    }
    assert forall k, m :: 0 <= k < m < a.Length ==> a[..][k] == a[k] && a[..][m] == a[m];
  }

  /** slices.IndexFunc with the test "class above c": the first such index, or -1. */
  method IndexAbove(a: array<BmcaPort>, c: int) returns (idx: int)
    ensures -1 <= idx < a.Length
    ensures idx == -1 ==> forall i :: 0 <= i < a.Length ==> a[i].gmClockClass <= c
    ensures idx != -1 ==> a[idx].gmClockClass > c && forall i :: 0 <= i < idx ==> a[i].gmClockClass <= c
  {
    var i := 0;
    while i < a.Length
      invariant 0 <= i <= a.Length
      invariant forall k :: 0 <= k < i ==> a[k].gmClockClass <= c
    {
      if a[i].gmClockClass > c {
        return i;
      }
      i := i + 1;
    }
    return -1;
  }

  /**
   * SortAndFilter: for GmClockClass, sort the ports in place and return the
   * prefix of those sharing the lowest class; for any other key the index stays
   * 0 and the whole slice is deleted.
   */
  method SortAndFilter(ports: array<BmcaPort>, sortBy: string) returns (r: seq<BmcaPort>)
    modifies ports
    ensures sortBy == GmClockClass ==> KeepsMinClass(old(ports[..]), r)
    ensures sortBy == GmClockClass ==> multiset(ports[..]) == old(multiset(ports[..])) && SortedByClass(ports[..])
    ensures sortBy == GmClockClass ==> |r| <= ports.Length && r == ports[..|r|]
    ensures sortBy != GmClockClass ==> r == [] && ports[..] == old(ports[..])
  {
    var idx := 0;
    if sortBy == GmClockClass {
      SortByClass(ports);
      // The test reads ports[0] only when it is called, that is for a non-empty array.
      var c := if ports.Length > 0 then ports[0].gmClockClass else 0;
      idx := IndexAbove(ports, c);
    }
    if idx != -1 {
      r := ports[..idx];
    } else {
      r := ports[..];
    }
    if sortBy == GmClockClass && ports.Length > 0 {
      var n := if idx == -1 then ports.Length else idx;
      assert r == ports[..][..n];
      SortedPrefixKeepsMinClass(old(ports[..]), ports[..], n);
    }
  }
}
