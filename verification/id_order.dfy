/** `sortIds` and `areSameIdList`: JavaScript's default array sort on ids,
    and element-wise comparison of id lists. */
module IdOrder {
  import opened InsertionSet

  /** The default `Array.prototype.sort` order on strings: lexicographic by
      character code, a proper prefix first. */
  predicate Le(a: string, b: string)
    decreases |a|
  {
    |a| == 0 || (|b| > 0 && (a[0] < b[0] || (a[0] == b[0] && Le(a[1..], b[1..]))))
  }

  lemma {:induction false} LeReflexive(a: string)
    ensures Le(a, a)
    decreases |a|
  {
    if |a| > 0 {
      LeReflexive(a[1..]);
    }
  }

  lemma {:induction false} LeTotal(a: string, b: string)
    ensures Le(a, b) || Le(b, a)
    decreases |a|
  {
    if |a| > 0 && |b| > 0 && a[0] == b[0] {
      LeTotal(a[1..], b[1..]);
    }
  }

  lemma {:induction false} LeAntisymmetric(a: string, b: string)
    requires Le(a, b) && Le(b, a)
    ensures a == b
    decreases |a|
  {
    if |a| > 0 {
      LeAntisymmetric(a[1..], b[1..]);
      assert a == [a[0]] + a[1..] && b == [b[0]] + b[1..];
    }
  }

  lemma {:induction false} LeTransitive(a: string, b: string, c: string)
    requires Le(a, b) && Le(b, c)
    ensures Le(a, c)
    decreases |a|
  {
    if |a| > 0 && a[0] == b[0] && b[0] == c[0] {
      LeTransitive(a[1..], b[1..], c[1..]);
    }
  }

  predicate Sorted(s: seq<string>) {
    forall i, j :: 0 <= i < j < |s| ==> Le(s[i], s[j])
  }

  /** One insertion step of the sort. */
  function Insert(x: string, s: seq<string>): (r: seq<string>)
    ensures multiset(r) == multiset(s) + multiset{x}
    ensures forall y :: y in r <==> y == x || y in s
  {
    if |s| == 0 then [x]
    else if Le(x, s[0]) then [x] + s
    else
      assert s == [s[0]] + s[1..];
      [s[0]] + Insert(x, s[1..])
  }

  /** Inserting into a sorted sequence keeps it sorted. */
  lemma {:induction false} InsertSorted(x: string, s: seq<string>)
    requires Sorted(s)
    ensures Sorted(Insert(x, s))
  {
    if |s| > 0 {
      if Le(x, s[0]) {
        LeTransitiveAll(x, s);
      } else {
        LeTotal(x, s[0]);
        assert s == [s[0]] + s[1..];
        assert forall y :: y in s[1..] ==> Le(s[0], y);
        InsertSorted(x, s[1..]);
      }
    }
  }

  /** Below the head of a sorted sequence means below all of it. */
  lemma LeTransitiveAll(x: string, s: seq<string>)
    requires |s| > 0 && Le(x, s[0])
    ensures Sorted(s) ==> forall y :: y in s ==> Le(x, y)
  {
    forall y | y in s && Sorted(s) ensures Le(x, y) {
      if y != s[0] {
        LeTransitive(x, s[0], y);
      }
    }
  }

  /** `ids.slice().sort()`. Sequences are values, so the argument is never mutated. */
  function SortIds(ids: seq<string>): (r: seq<string>)
    ensures Sorted(r)
    ensures multiset(r) == multiset(ids)
  {
    if |ids| == 0 then []
    else
      assert ids == [ids[0]] + ids[1..];
      InsertSorted(ids[0], SortIds(ids[1..]));
      Insert(ids[0], SortIds(ids[1..]))
  }

  /** `areSameIdList`: same length and equal at every index. */
  function AreSameIdList(a: seq<string>, b: seq<string>): (r: bool)
    ensures r <==> a == b
  {
    |a| == |b| && forall i :: 0 <= i < |a| ==> a[i] == b[i]
  }

  /** The head of a sorted sequence is below every element. */
  lemma HeadIsLeast(s: seq<string>, z: string)
    requires Sorted(s) && z in s
    ensures Le(s[0], z)
  {
    if z == s[0] {
      LeReflexive(z);
    }
  }

  /** A sorted arrangement of a multiset is unique. */
  lemma {:induction false} SortedUnique(a: seq<string>, b: seq<string>)
    requires Sorted(a) && Sorted(b)
    requires multiset(a) == multiset(b)
    ensures a == b
    decreases |a|
  {
    assert |a| == |multiset(a)| == |multiset(b)| == |b|;
    if |a| > 0 {
      assert a[0] in multiset(a) && b[0] in multiset(b);
      HeadIsLeast(b, a[0]);
      HeadIsLeast(a, b[0]);
      LeAntisymmetric(a[0], b[0]);
      assert a == [a[0]] + a[1..] && b == [b[0]] + b[1..];
      assert multiset(a[1..]) == multiset(a) - multiset{a[0]};
      assert multiset(b[1..]) == multiset(b) - multiset{b[0]};
      SortedUnique(a[1..], b[1..]);
    }
  }

  /** Sorting a sorted list changes nothing, so republishing a sorted list
      records that very list. */
  lemma SortSorted(ids: seq<string>)
    requires Sorted(ids)
    ensures SortIds(ids) == ids
  {
    SortedUnique(SortIds(ids), ids);
  }

  /** Two id lists sort to the same list exactly when they hold the same ids
      with the same multiplicities: the comparison ignores insertion order. */
  lemma SortedEqualIffPermutation(a: seq<string>, b: seq<string>)
    ensures SortIds(a) == SortIds(b) <==> multiset(a) == multiset(b)
  {
    if multiset(a) == multiset(b) {
      SortedUnique(SortIds(a), SortIds(b));
    }
  }

  /** For duplicate-free lists (what `Array.from` of a `Set` gives) the sorted
      comparison is set equality. */
  lemma SortedEqualIffSameSet(a: seq<string>, b: seq<string>)
    requires NoDup(a) && NoDup(b)
    ensures SortIds(a) == SortIds(b) <==> (forall x :: x in a <==> x in b)
  {
    SortedEqualIffPermutation(a, b);
    NoDupSameElements(a, b);
  }

  /** A permutation of a duplicate-free list is duplicate-free. */
  lemma PermutationNoDup(a: seq<string>, b: seq<string>)
    requires NoDup(a) && multiset(a) == multiset(b)
    ensures NoDup(b)
  {
    NoDupCount(a);
    forall i, j | 0 <= i < j < |b| ensures b[i] != b[j] {
      if b[i] == b[j] {
        TwoOccurrences(b, i, j);
      }
    }
  }

  lemma TwoOccurrences(b: seq<string>, i: nat, j: nat)
    requires i < j < |b| && b[i] == b[j]
    ensures multiset(b)[b[i]] >= 2
  {
    assert b == b[..i] + [b[i]] + b[i + 1..j] + [b[j]] + b[j + 1..];
  }
}
