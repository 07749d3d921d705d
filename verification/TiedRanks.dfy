/** Ranks with ties averaged, filled in place (sim/analysis.py). */
module TiedRanks {
  import opened Arithmetic
  import opened StableSort

  // --------------------------------------------------------------- what a rank is

  function Below(v: real): real -> bool { (x: real) => x < v }

  function EqualTo(v: real): real -> bool { (x: real) => x == v }

  function Above(v: real): real -> bool { (x: real) => x > v }

  function Count(values: seq<real>, keep: real -> bool): nat { |Filter(values, keep)| }

  /** The average of the places a value and its ties would take. */
  function Rank(values: seq<real>, v: real): real {
    Count(values, Below(v)) as real + (Count(values, EqualTo(v)) as real + 1.0) / 2.0
  }

  function Ranks(values: seq<real>): (r: seq<real>)
    ensures |r| == |values| && forall i :: 0 <= i < |r| ==> r[i] == Rank(values, values[i])
  {
    seq(|values|, i requires 0 <= i < |values| => Rank(values, values[i]))
  }

  // ----------------------------------------------------------------- the algorithm

  function Range(n: nat): (r: seq<int>)
    ensures |r| == n && forall i :: 0 <= i < n ==> r[i] == i
  {
    seq(n, i requires 0 <= i < n => i)
  }

  function At(values: seq<real>): int -> real { (i: int) => if 0 <= i < |values| then values[i] else 0.0 }

  function ByValue(values: seq<real>): (int, int) -> bool { (i: int, j: int) => At(values)(i) <= At(values)(j) }

  function Indexed(values: seq<real>): seq<int> { Sort(Range(|values|), ByValue(values)) }

  lemma IndicesSortTheValues(values: seq<real>)
    ensures Map(Indexed(values), At(values)) == Sort(values, AtMost)
  {
    SortCommutesWithMap(Range(|values|), ByValue(values), AtMost, At(values));
    assert Map(Range(|values|), At(values)) == values;
  }

  lemma IndexedMembers(values: seq<real>, i: int)
    ensures i in Indexed(values) <==> 0 <= i < |values|
  {
    SortedMembers(Range(|values|), ByValue(values), i);
    if 0 <= i < |values| {
      assert Range(|values|)[i] == i;
    }
  }

  ghost predicate SortsTheIndices(values: seq<real>, indexed: seq<int>, sorted: seq<real>) {
    && |indexed| == |sorted| == |values|
    && (forall k :: 0 <= k < |values| ==> 0 <= indexed[k] < |values| && values[indexed[k]] == sorted[k])
    && (forall i :: 0 <= i < |values| ==> i in indexed)
  }

  lemma SortedIndices(values: seq<real>)
    ensures SortsTheIndices(values, Indexed(values), Sort(values, AtMost))
  {
    var indexed := Indexed(values);
    IndicesSortTheValues(values);
    forall k | 0 <= k < |values| ensures 0 <= indexed[k] < |values| && values[indexed[k]] == Sort(values, AtMost)[k] {
      IndexedMembers(values, indexed[k]);
      assert Map(indexed, At(values))[k] == At(values)(indexed[k]);
    }
    forall i | 0 <= i < |values| ensures i in indexed {
      IndexedMembers(values, i);
    }
  }

  lemma CountIgnoresOrder(values: seq<real>, keep: real -> bool)
    ensures Count(Sort(values, AtMost), keep) == Count(values, keep)
  {
    SortCommutesWithFilter(values, AtMost, keep);
  }

  /** In a sorted list, a maximal run of equal values is counted by its ends. */
  lemma {:induction false} CountRun(s: seq<real>, v: real, i: nat, j: nat)
    requires i <= j < |s|
    requires forall k :: 0 <= k < i ==> s[k] < v
    requires forall k :: i <= k <= j ==> s[k] == v
    requires forall k :: j < k < |s| ==> s[k] > v
    ensures Count(s, Below(v)) == i && Count(s, EqualTo(v)) == j - i + 1
  {
    var front := s[..|s| - 1];
    if j < |front| {
      CountRun(front, v, i, j);
    } else if i < j {
      CountRun(front, v, i, j - 1);
    } else {
      AllBelow(front, v);
    }
  }

  lemma {:induction false} AllBelow(s: seq<real>, v: real)
    requires forall k :: 0 <= k < |s| ==> s[k] < v
    ensures Count(s, Below(v)) == |s| && Count(s, EqualTo(v)) == 0
  {
    if s != [] {
      AllBelow(s[..|s| - 1], v);
    }
  }

  /** A run i..j of the sorted values gets the average of its places. */
  lemma RunRank(values: seq<real>, i: nat, j: nat, k: nat)
    requires i <= k <= j < |values|
    requires var s := Sort(values, AtMost);
      && (i == 0 || s[i - 1] != s[i]) && s[j] == s[i] && (j + 1 == |s| || s[j + 1] != s[i])
    ensures Rank(values, Sort(values, AtMost)[k]) == (i + j) as real / 2.0 + 1.0
  {
    var s := Sort(values, AtMost);
    SortOrders(values, AtMost);
    RunIsMaximal(s, i, j);
    CountRun(s, s[i], i, j);
    CountIgnoresOrder(values, Below(s[i]));
    CountIgnoresOrder(values, EqualTo(s[i]));
  }

  lemma RunIsMaximal(s: seq<real>, i: nat, j: nat)
    requires Sorted(s, AtMost) && i <= j < |s|
    requires (i == 0 || s[i - 1] != s[i]) && s[j] == s[i] && (j + 1 == |s| || s[j + 1] != s[i])
    ensures forall k :: 0 <= k < i ==> s[k] < s[i]
    ensures forall k :: i <= k <= j ==> s[k] == s[i]
    ensures forall k :: j < k < |s| ==> s[k] > s[i]
  {
    forall k | 0 <= k < i ensures s[k] < s[i] {
      assert k == i - 1 || AtMost(s[k], s[i - 1]);
      assert AtMost(s[i - 1], s[i]);
    }
    forall k | i <= k <= j ensures s[k] == s[i] {
      assert k == i || AtMost(s[i], s[k]);
      assert k == j || AtMost(s[k], s[j]);
    }
    forall k | j < k < |s| ensures s[k] > s[i] {
      assert k == j + 1 || AtMost(s[j + 1], s[k]);
      assert AtMost(s[j], s[j + 1]);
    }
  }

  /** The inner walk to the end of a run of equal values. */
  method RunEnd(values: seq<real>, indexed: seq<int>, ghost sorted: seq<real>, i: nat) returns (j: nat)
    requires SortsTheIndices(values, indexed, sorted) && i < |values|
    ensures i <= j < |values| && sorted[j] == sorted[i] && (j + 1 == |values| || sorted[j + 1] != sorted[i])
  {
    j := i;
    while j + 1 < |indexed| && values[indexed[j + 1]] == values[indexed[i]]
      invariant i <= j < |values| && sorted[j] == sorted[i]
    {
      j := j + 1;
    }
  }

  method RankData(values: seq<real>) returns (ranks: array<real>)
    ensures fresh(ranks) && ranks[..] == Ranks(values)
  {
    hide Indexed, Sort, Rank;
    var n := |values|;
    var indexed := Indexed(values);
    ghost var sorted := Sort(values, AtMost);
    SortedIndices(values);
    ranks := new real[n](_ => 0.0);
    var i := 0;
    while i < n
      invariant i <= n && (i == 0 || i == n || sorted[i - 1] != sorted[i])
      invariant forall k :: 0 <= k < i ==> ranks[indexed[k]] == Rank(values, sorted[k])
    {
      var j := RunEnd(values, indexed, sorted, i);
      var avgRank := (i + j) as real / 2.0 + 1.0;
      for k := i to j + 1
        invariant forall m :: 0 <= m < k ==> ranks[indexed[m]] == Rank(values, sorted[m])
      {
        RunRank(values, i, j, k);
        ranks[indexed[k]] := avgRank;
      }
      i := j + 1;
    }
    forall m | 0 <= m < n ensures ranks[m] == Rank(values, values[m]) {
      assert m in indexed;
    }
  }
}
