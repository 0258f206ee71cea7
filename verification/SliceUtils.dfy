/** utils/utils.go: helpers on string slices. */
module SliceUtils {
  import opened GoStrings

  /** A slice may be nil, which differs from an empty one. */
  datatype Slice = Nil | Slice(items: seq<string>)

  // ---- StringSliceEqual -------------------------------------------------------------

  function Occurrences(s: seq<string>, v: string): nat {
    if s == [] then 0
    else Occurrences(s[..|s| - 1], v) + if s[|s| - 1] == v then 1 else 0
  }

  lemma {:induction false} OccurrencesIsMultiplicity(s: seq<string>, v: string)
    ensures Occurrences(s, v) == multiset(s)[v]
  {
    if s != [] {
      var init, x := s[..|s| - 1], s[|s| - 1];
      OccurrencesIsMultiplicity(init, v);
      assert s == init + [x];
    }
  }

  lemma {:induction false} OccurrencesPrefix(s: seq<string>, i: nat, v: string)
    requires i <= |s|
    ensures Occurrences(s[..i], v) <= Occurrences(s, v)
    decreases |s|
  {
    if i == |s| {
      assert s[..i] == s;
    } else {
      var init := s[..|s| - 1];
      assert init[..i] == s[..i];
      OccurrencesPrefix(init, i, v);
    }
  }

  /** Lists of one length are equal as multisets as soon as no item occurs more often in
      the second. */
  lemma EqualWhenNoExcess(a: seq<string>, b: seq<string>)
    requires |a| == |b| && forall v :: Occurrences(b, v) <= Occurrences(a, v)
    ensures multiset(a) == multiset(b)
  {
    forall v
      ensures multiset(b)[v] <= multiset(a)[v]
    {
      OccurrencesIsMultiplicity(a, v);
      OccurrencesIsMultiplicity(b, v);
    }
    assert multiset(a) == multiset(b) + (multiset(a) - multiset(b));
  }

  /** mapKeys[v], where an absent key counts zero. */
  function Count(counts: map<string, int>, v: string): int {
    if v in counts then counts[v] else 0
  }

  /** The counts are those of `a` less those of `b`. */
  ghost predicate Tallies(counts: map<string, int>, a: seq<string>, b: seq<string>) {
    forall v :: Count(counts, v) == Occurrences(a, v) - Occurrences(b, v)
  }

  lemma TallyUp(counts: map<string, int>, a: seq<string>, i: nat)
    requires i < |a| && Tallies(counts, a[..i], [])
    ensures Tallies(counts[a[i] := Count(counts, a[i]) + 1], a[..i + 1], [])
  {
    assert a[..i + 1][..i] == a[..i];
  }

  lemma TallyDown(counts: map<string, int>, a: seq<string>, b: seq<string>, i: nat)
    requires i < |b| && Tallies(counts, a, b[..i])
    ensures Tallies(counts[b[i] := Count(counts, b[i]) - 1], a, b[..i + 1])
  {
    assert b[..i + 1][..i] == b[..i];
  }

  lemma Excess(a: seq<string>, b: seq<string>, i: nat, v: string)
    requires i <= |b| && Occurrences(a, v) < Occurrences(b[..i], v)
    ensures multiset(a) != multiset(b)
  {
    OccurrencesPrefix(b, i, v);
    OccurrencesIsMultiplicity(a, v);
    OccurrencesIsMultiplicity(b, v);
  }

  method StringSliceEqual(s1: Slice, s2: Slice) returns (equal: bool)
    ensures s1.Slice? && s2.Slice? ==> (equal <==> multiset(s1.items) == multiset(s2.items))
    ensures s1.Nil? || s2.Nil? ==> (equal <==> s1 == s2)
  {
    if s1.Nil? && s2.Nil? {
      return true;
    }
    if s1.Nil? || s2.Nil? {
      return false;
    }
    var a, b := s1.items, s2.items;
    if |a| != |b| {
      assert |multiset(a)| != |multiset(b)|;
      return false;
    }
    var mapKeys: map<string, int> := map[];
    for i := 0 to |a|
      invariant Tallies(mapKeys, a[..i], [])
    {
      TallyUp(mapKeys, a, i);
      mapKeys := mapKeys[a[i] := Count(mapKeys, a[i]) + 1];
    }
    assert a[..|a|] == a;
    for i := 0 to |b|
      invariant Tallies(mapKeys, a, b[..i])
      invariant forall v :: Occurrences(b[..i], v) <= Occurrences(a, v)
    {
      TallyDown(mapKeys, a, b, i);
      assert b[..i + 1][..i] == b[..i];
      mapKeys := mapKeys[b[i] := Count(mapKeys, b[i]) - 1];
      if mapKeys[b[i]] < 0 {
        Excess(a, b, i + 1, b[i]);
        return false;
      }
    }
    assert b[..|b|] == b;
    EqualWhenNoExcess(a, b);
    return true;
  }

  // ---- RemoveDuplicateElement -------------------------------------------------------

  /** Position of the first occurrence of `x`. */
  function FirstIndex(s: seq<string>, x: string): (i: nat)
    requires x in s
    ensures i < |s| && s[i] == x && forall k :: 0 <= k < i ==> s[k] != x
  {
    if s[0] == x then 0 else FirstIndex(s[1..], x) + 1
  }

  lemma FirstIndexIs(s: seq<string>, k: nat)
    requires k < |s| && forall i :: 0 <= i < k ==> s[i] != s[k]
    ensures FirstIndex(s, s[k]) == k
  {
  }

  /** `r` lists each element of `s` once, in order of first occurrence. */
  ghost predicate ListsOnce(r: seq<string>, s: seq<string>) {
    && (forall x :: x in r <==> x in s)
    && (forall i, j :: 0 <= i < j < |r| ==> FirstIndex(s, r[i]) < FirstIndex(s, r[j]))
  }

  function Distinct(s: seq<string>): seq<string> {
    if s == [] then []
    else
      var init, x := s[..|s| - 1], s[|s| - 1];
      Distinct(init) + if x in init then [] else [x]
  }

  lemma {:induction false} DistinctListsOnce(s: seq<string>)
    ensures ListsOnce(Distinct(s), s)
  {
    if s != [] {
      var init, x := s[..|s| - 1], s[|s| - 1];
      assert s == init + [x];
      DistinctListsOnce(init);
      ListsOnceStep(Distinct(init), init, x);
    }
  }

  lemma ListsOnceStep(r: seq<string>, init: seq<string>, x: string)
    requires ListsOnce(r, init)
    ensures ListsOnce(r + if x in init then [] else [x], init + [x])
  {
    DistinctStep(init, x);
  }

  lemma DistinctStep(init: seq<string>, x: string)
    ensures forall y :: y in init ==> FirstIndex(init + [x], y) == FirstIndex(init, y)
    ensures x !in init ==> FirstIndex(init + [x], x) == |init|
  {
    var s := init + [x];
    assert forall k :: 0 <= k < |init| ==> s[k] == init[k];
    forall y | y in init
      ensures FirstIndex(s, y) == FirstIndex(init, y)
    {
      FirstIndexIs(s, FirstIndex(init, y));
    }
    if x !in init {
      FirstIndexIs(s, |init|);
    }
  }

  method RemoveDuplicateElement(addrs: seq<string>) returns (result: seq<string>)
    ensures result == Distinct(addrs)
    ensures ListsOnce(result, addrs)
  {
    result := [];
    var temp: set<string> := {};
    for i := 0 to |addrs|
      invariant result == Distinct(addrs[..i])
      invariant forall x :: x in temp <==> x in addrs[..i]
    {
      assert addrs[..i + 1][..i] == addrs[..i];
      if addrs[i] !in temp {
        temp := temp + {addrs[i]};
        result := result + [addrs[i]];
      }
    }
    assert addrs[..|addrs|] == addrs;
    DistinctListsOnce(addrs);
  }

  /** There is only one such list. */
  lemma ListsOnceUnique(r: seq<string>, q: seq<string>, s: seq<string>)
    requires ListsOnce(r, s) && ListsOnce(q, s)
    ensures r == q
  {
    var rank := x => if x in s then FirstIndex(s, x) else 0;
    RanksIncrease(r, s, rank);
    RanksIncrease(q, s, rank);
    SortedAgree(r, q, rank, |r|);
    SortedAgree(q, r, rank, |q|);
  }

  lemma RanksIncrease(r: seq<string>, s: seq<string>, rank: string -> int)
    requires ListsOnce(r, s) && forall x :: x in s ==> rank(x) == FirstIndex(s, x)
    ensures Increasing(r, rank)
  {
    forall i, j | 0 <= i < j < |r|
      ensures rank(r[i]) < rank(r[j])
    {
      assert r[i] in s && r[j] in s;
    }
  }

  ghost predicate Increasing(r: seq<string>, rank: string -> int) {
    forall i, j :: 0 <= i < j < |r| ==> rank(r[i]) < rank(r[j])
  }

  lemma {:induction false} SortedAgree(r: seq<string>, q: seq<string>, rank: string -> int, n: nat)
    requires Increasing(r, rank) && Increasing(q, rank) && (forall x :: x in r <==> x in q) && n <= |r|
    ensures n <= |q| && r[..n] == q[..n]
  {
    if n > 0 {
      SortedAgree(r, q, rank, n - 1);
      assert forall k :: 0 <= k < n - 1 ==> r[..n - 1][k] == r[k] && q[..n - 1][k] == q[k];
      assert r[n - 1] in q;
      var k :| 0 <= k < |q| && q[k] == r[n - 1];
      assert k >= n - 1;
      assert q[n - 1] in r;
      var l :| 0 <= l < |r| && r[l] == q[n - 1];
      assert l >= n - 1;
      assert k == n - 1;
    }
  }

  lemma {:induction false} DistinctKeeps(r: seq<string>)
    requires forall i, j :: 0 <= i < j < |r| ==> r[i] != r[j]
    ensures Distinct(r) == r
  {
    if r != [] {
      DistinctKeeps(r[..|r| - 1]);
    }
  }

  lemma DistinctIdempotent(s: seq<string>)
    ensures Distinct(Distinct(s)) == Distinct(s)
  {
    DistinctListsOnce(s);
    DistinctKeeps(Distinct(s));
  }

  // ---- SliceTrimSpace ---------------------------------------------------------------

  /** The trimmed, non-empty items, in order. */
  function TrimAll(input: seq<string>): (output: seq<string>)
    ensures forall i :: 0 <= i < |output| ==> output[i] != "" && Trimmed(output[i])
  {
    if input == [] then []
    else
      var t := TrimSpace(input[|input| - 1]);
      TrimAll(input[..|input| - 1]) + if t != "" then [t] else []
  }

  method SliceTrimSpace(input: seq<string>) returns (output: seq<string>)
    ensures output == TrimAll(input)
  {
    output := [];
    for i := 0 to |input|
      invariant output == TrimAll(input[..i])
    {
      assert input[..i + 1][..i] == input[..i];
      var str := TrimSpace(input[i]);
      if str != "" {
        output := output + [str];
      }
    }
    assert input[..|input|] == input;
  }

  lemma {:induction false} TrimAllConcat(a: seq<string>, b: seq<string>)
    ensures TrimAll(a + b) == TrimAll(a) + TrimAll(b)
  {
    if b == [] {
      assert a + b == a;
    } else {
      var init, x := b[..|b| - 1], b[|b| - 1];
      assert (a + b)[..|a + b| - 1] == a + init;
      TrimAllConcat(a, init);
    }
  }

  lemma TrimAllOne(item: string)
    ensures TrimAll([item]) == if TrimSpace(item) == "" then [] else [TrimSpace(item)]
  {
    assert [item][..0] == [];
  }

  /** Clean lists are kept as they are, so trimming twice is trimming once. */
  lemma {:induction false} TrimAllKeeps(input: seq<string>)
    requires forall i :: 0 <= i < |input| ==> input[i] != "" && Trimmed(input[i])
    ensures TrimAll(input) == input
  {
    if input != [] {
      TrimAllKeeps(input[..|input| - 1]);
    }
  }

  // ---- StringInSlice ----------------------------------------------------------------

  /** Membership, except that the empty string is never found. */
  predicate InSlice(input: seq<string>, str: string) { str != "" && str in input }

  method StringInSlice(input: seq<string>, str: string) returns (found: bool)
    ensures found <==> str != "" && str in input
  {
    if str == "" || |input| == 0 {
      return false;
    }
    for i := 0 to |input|
      invariant str !in input[..i]
    {
      if input[i] == str {
        return true;
      }
    }
    return false;
  }
}
