/** The duplicate test on the inputs' absolute index sets: the sets, as
    vectors of integers, are sorted, consecutive duplicates are removed, and
    the inputs are accepted only if nothing was removed. */
module IndexSets {

  /** The order of `Vec<u128>`: lexicographic, a proper prefix first. */
  predicate LexLe(a: seq<nat>, b: seq<nat>)
  {
    if |a| == 0 then true
    else if |b| == 0 then false
    else if a[0] != b[0] then a[0] < b[0]
    else LexLe(a[1..], b[1..])
  }

  lemma {:induction false} LexLeTotal(a: seq<nat>, b: seq<nat>)
    ensures LexLe(a, b) || LexLe(b, a)
  {
    if |a| > 0 && |b| > 0 && a[0] == b[0] {
      LexLeTotal(a[1..], b[1..]);
    }
  }

  lemma {:induction false} LexLeAntisymmetric(a: seq<nat>, b: seq<nat>)
    requires LexLe(a, b) && LexLe(b, a)
    ensures a == b
  {
    if |a| > 0 && |b| > 0 {
      LexLeAntisymmetric(a[1..], b[1..]);
      assert a == [a[0]] + a[1..] && b == [b[0]] + b[1..];
    }
  }

  lemma {:induction false} LexLeTransitive(a: seq<nat>, b: seq<nat>, c: seq<nat>)
    requires LexLe(a, b) && LexLe(b, c)
    ensures LexLe(a, c)
  {
    if |a| > 0 && |b| > 0 && |c| > 0 && a[0] == b[0] && b[0] == c[0] {
      LexLeTransitive(a[1..], b[1..], c[1..]);
    }
  }

  predicate Sorted(s: seq<seq<nat>>)
  {
    forall i :: 0 < i < |s| ==> LexLe(s[i - 1], s[i])
  }

  /** No two positions hold the same index set. */
  predicate PairwiseDistinct(s: seq<seq<nat>>)
  {
    forall i, j :: 0 <= i < j < |s| ==> s[i] != s[j]
  }

  /** `x` inserted into the sorted `s` before the first element it does not
      exceed. */
  function Insert(s: seq<seq<nat>>, x: seq<nat>): (r: seq<seq<nat>>)
    requires Sorted(s)
    ensures Sorted(r) && multiset(r) == multiset(s) + multiset{x}
    ensures |r| > 0 && (r[0] == x || (|s| > 0 && r[0] == s[0]))
  {
    if |s| == 0 then [x]
    else if LexLe(x, s[0]) then [x] + s
    else
      LexLeTotal(x, s[0]);
      var rest := Insert(s[1..], x);
      assert s == [s[0]] + s[1..];
      [s[0]] + rest
  }

  /** `sort` on the vector of index sets (here on a value, by insertion). */
  method SortIndexSets(sets: seq<seq<nat>>) returns (sorted: seq<seq<nat>>)
    ensures Sorted(sorted) && multiset(sorted) == multiset(sets)
  {
    sorted := [];
    for i := 0 to |sets|
      invariant Sorted(sorted) && multiset(sorted) == multiset(sets[..i])
    {
      assert sets[..i + 1] == sets[..i] + [sets[i]];
      sorted := Insert(sorted, sets[i]);
    }
    assert sets[..|sets|] == sets;
  }

  /** `dedup`: every run of equal neighbours shrinks to one element. */
  function Dedup(s: seq<seq<nat>>): (r: seq<seq<nat>>)
    ensures |r| <= |s|
  {
    if |s| <= 1 then s
    else if s[0] == s[1] then Dedup(s[1..])
    else [s[0]] + Dedup(s[1..])
  }

  /** `dedup` on the sorted vector, keeping the first of each run. */
  method DedupIndexSets(s: seq<seq<nat>>) returns (r: seq<seq<nat>>)
    ensures r == Dedup(s)
  {
    if |s| == 0 {
      return [];
    }
    var kept: seq<seq<nat>> := [];
    var i := 1;
    while i < |s|
      invariant 1 <= i <= |s|
      invariant kept + Dedup(s[i - 1..]) == Dedup(s)
    {
      if s[i - 1] != s[i] {
        kept := kept + [s[i - 1]];
      }
      i := i + 1;
    }
    r := kept + [s[|s| - 1]];
  }

  /** `dedup` removes nothing exactly when no two neighbours are equal. */
  lemma {:induction false} DedupKeepsAll(s: seq<seq<nat>>)
    ensures |Dedup(s)| == |s| <==> forall i :: 0 < i < |s| ==> s[i - 1] != s[i]
  {
    if |s| > 1 {
      DedupKeepsAll(s[1..]);
      var t := s[1..];
      assert forall k :: 0 <= k < |t| ==> t[k] == s[k + 1];
    }
  }

  lemma {:induction false} SortedChain(s: seq<seq<nat>>, i: nat, j: nat)
    requires Sorted(s) && i <= j < |s|
    ensures LexLe(s[i], s[j])
    decreases j - i
  {
    if i == j {
      LexLeTotal(s[i], s[i]);
    } else {
      SortedChain(s, i + 1, j);
      LexLeTransitive(s[i], s[i + 1], s[j]);
    }
  }

  /** In a sorted sequence, distinct neighbours make all elements distinct. */
  lemma SortedNeighboursDistinct(s: seq<seq<nat>>)
    requires Sorted(s)
    requires forall i :: 0 < i < |s| ==> s[i - 1] != s[i]
    ensures PairwiseDistinct(s)
  {
    forall i, j | 0 <= i < j < |s|
      ensures s[i] != s[j]
    {
      if s[i] == s[j] {
        SortedChain(s, i + 1, j);
        LexLeAntisymmetric(s[i], s[i + 1]);
        assert false;
      }
    }
  }

  /** Pairwise distinctness is a property of the multiset of elements. */
  lemma {:induction false} PairwiseDistinctMultiset(s: seq<seq<nat>>)
    ensures PairwiseDistinct(s) <==> forall x :: multiset(s)[x] <= 1
  {
    if |s| > 0 {
      var t := s[1..];
      PairwiseDistinctMultiset(t);
      assert s == [s[0]] + t;
      if PairwiseDistinct(s) {
        assert s[0] !in t by {
          assert forall k :: 0 <= k < |t| ==> t[k] == s[k + 1];
        }
        assert PairwiseDistinct(t) by {
          forall i, j | 0 <= i < j < |t| ensures t[i] != t[j] {
            assert t[i] == s[i + 1] && t[j] == s[j + 1];
          }
        }
      } else {
        var i, j :| 0 <= i < j < |s| && s[i] == s[j];
        if i == 0 {
          assert s[j] == t[j - 1];
          assert multiset(s)[s[0]] >= 2;
        } else {
          assert !PairwiseDistinct(t) by {
            assert t[i - 1] == s[i] && t[j - 1] == s[j];
          }
          var x :| multiset(t)[x] > 1;
          assert multiset(s)[x] >= multiset(t)[x];
        }
      }
    }
  }

  /** The check on index sets: after sorting and removing duplicates, as
      many sets remain as there were inputs exactly when no two inputs share
      an index set. */
  lemma SortDedupCountsDistinct(sets: seq<seq<nat>>, sorted: seq<seq<nat>>)
    requires Sorted(sorted) && multiset(sorted) == multiset(sets)
    ensures |Dedup(sorted)| == |sets| <==> PairwiseDistinct(sets)
  {
    assert |sorted| == |sets| by {
      assert |multiset(sorted)| == |multiset(sets)|;
    }
    DedupKeepsAll(sorted);
    PairwiseDistinctMultiset(sorted);
    PairwiseDistinctMultiset(sets);
    if forall i :: 0 < i < |sorted| ==> sorted[i - 1] != sorted[i] {
      SortedNeighboursDistinct(sorted);
    }
  }
}
