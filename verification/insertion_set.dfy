/** JavaScript's `Set<string>` as the wishlist code uses it: a sequence without
    duplicates that remembers insertion order (which `Array.from` exposes). */
module InsertionSet {

  predicate NoDup<T(==)>(s: seq<T>) {
    forall i, j :: 0 <= i < j < |s| ==> s[i] != s[j]
  }

  /** `s` keeps the relative order of `big` (greedy matching decides it). */
  predicate IsSubseq<T(==)>(s: seq<T>, big: seq<T>)
    decreases |big|
  {
    if |s| == 0 then true
    else if |big| == 0 then false
    else if s[0] == big[0] then IsSubseq(s[1..], big[1..])
    else IsSubseq(s, big[1..])
  }

  /** The position of the first occurrence of `y`. */
  function FirstIndex<T(==)>(xs: seq<T>, y: T): (k: nat)
    requires y in xs
    ensures k < |xs| && xs[k] == y
    ensures forall j :: 0 <= j < k ==> xs[j] != y
  {
    if xs[0] == y then 0 else 1 + FirstIndex(xs[1..], y)
  }

  /** `set.add(x)`: a new element goes to the end, a present one stays put. */
  function Add<T(==, !new)>(s: seq<T>, x: T): (r: seq<T>)
    ensures forall y :: y in r <==> y in s || y == x
    ensures x in s ==> r == s
    ensures x !in s ==> r == s + [x]
    ensures |s| <= |r| && r[..|s|] == s
    ensures NoDup(s) ==> NoDup(r)
  {
    if x in s then s else s + [x]
  }

  /** `set.delete(x)`: the other elements keep their order. */
  function Delete<T(==, !new)>(s: seq<T>, x: T): (r: seq<T>)
    ensures forall y :: y in r <==> y in s && y != x
    ensures IsSubseq(r, s)
    ensures x !in s ==> r == s
    ensures NoDup(s) ==> NoDup(r)
  {
    if |s| == 0 then []
    else if s[0] == x then Delete(s[1..], x)
    else
      var rest := Delete(s[1..], x);
      assert NoDup(s) ==> NoDup(s[1..]) && s[0] !in s[1..];
      [s[0]] + rest
  }

  /** `Array.from(new Set(xs))`: duplicates dropped, first occurrences kept in order. */
  function FromSeq<T(==, !new)>(xs: seq<T>): (r: seq<T>)
    ensures NoDup(r)
    ensures forall y :: y in r <==> y in xs
    ensures forall i, j :: 0 <= i < j < |r| ==> FirstIndex(xs, r[i]) < FirstIndex(xs, r[j])
    ensures NoDup(xs) ==> r == xs
  {
    if |xs| == 0 then []
    else
      var init := xs[..|xs| - 1];
      var last := xs[|xs| - 1];
      assert xs == init + [last];
      var d := FromSeq(init);
      FirstIndexOfPrefix(init, last);
      assert NoDup(xs) ==> NoDup(init) && last !in init;
      Add(d, last)
  }

  /** Appending an element does not move first occurrences inside the prefix. */
  lemma FirstIndexOfPrefix<T>(init: seq<T>, last: T)
    ensures forall y :: y in init ==> FirstIndex(init + [last], y) == FirstIndex(init, y)
    ensures last !in init ==> FirstIndex(init + [last], last) == |init|
  {
    forall y | y in init
      ensures FirstIndex(init + [last], y) == FirstIndex(init, y)
    {
      var k1 := FirstIndex(init + [last], y);
      var k2 := FirstIndex(init, y);
      assert (init + [last])[k2] == y;
    }
  }

  /** A duplicate-free sequence holds each of its elements exactly once. */
  lemma {:induction false} NoDupCount<T>(s: seq<T>)
    requires NoDup(s)
    ensures forall x :: multiset(s)[x] == if x in s then 1 else 0
  {
    if |s| > 0 {
      assert s == [s[0]] + s[1..];
      assert NoDup(s[1..]);
      assert s[0] !in s[1..];
      NoDupCount(s[1..]);
    }
  }

  /** For duplicate-free sequences, equal multisets and equal element sets coincide. */
  lemma NoDupSameElements<T>(a: seq<T>, b: seq<T>)
    requires NoDup(a) && NoDup(b)
    ensures multiset(a) == multiset(b) <==> (forall x :: x in a <==> x in b)
  {
    NoDupCount(a);
    NoDupCount(b);
    if forall x :: x in a <==> x in b {
      assert forall x :: multiset(a)[x] == multiset(b)[x];
    }
    if multiset(a) == multiset(b) {
      forall x ensures x in a <==> x in b {
        assert x in a <==> x in multiset(a);
        assert x in b <==> x in multiset(b);
      }
    }
  }

  /** Deleting the element just appended undoes the append. */
  lemma {:induction false} DeleteAppended<T(!new)>(a: seq<T>, x: T)
    ensures Delete(a + [x], x) == Delete(a, x)
  {
    if |a| > 0 {
      assert (a + [x])[1..] == a[1..] + [x];
      DeleteAppended(a[1..], x);
    }
  }
}
