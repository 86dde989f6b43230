/** What the hook hands to the page: the raw query result minus the deleted
    ids, and the `stats` folded over it. */
module View {
  import opened Options
  import opened WishlistTypes
  import opened InsertionSet

  /** `rawWishlist.filter(item => !deletedIds.has(item.id))`. */
  function Visible(raw: seq<Item>, deleted: seq<string>): (w: seq<Item>)
    ensures forall x :: x in w <==> x in raw && x.id !in deleted
    ensures forall x :: multiset(w)[x] == if x.id in deleted then 0 else multiset(raw)[x]
    ensures IsSubseq(w, raw)
  {
    if |raw| == 0 then []
    else
      var rest := Visible(raw[1..], deleted);
      assert raw == [raw[0]] + raw[1..];
      if raw[0].id in deleted then rest
      else
        assert ([raw[0]] + rest)[1..] == rest;
        [raw[0]] + rest
  }

  /** The items the filter removes. */
  function Hidden(raw: seq<Item>, deleted: seq<string>): (h: seq<Item>)
    ensures forall x :: x in h <==> x in raw && x.id in deleted
  {
    if |raw| == 0 then []
    else
      var rest := Hidden(raw[1..], deleted);
      assert raw == [raw[0]] + raw[1..];
      if raw[0].id in deleted then [raw[0]] + rest else rest
  }

  /** `currentPriceSats` is defined and at most the target (an undefined price
      compares as `Infinity`, which is never at most a finite target). */
  predicate IsReady(x: Item) {
    x.currentPriceSats.Some? && x.currentPriceSats.value <= x.targetPriceSats
  }

  /** `wishlist.filter(ready).length`. */
  function CountReady(w: seq<Item>): (n: nat)
    ensures n <= |w|
    ensures n == |w| <==> forall x :: x in w ==> IsReady(x)
    ensures n == 0 <==> forall x :: x in w ==> !IsReady(x)
  {
    if |w| == 0 then 0
    else
      var rest := CountReady(w[1..]);
      assert w == [w[0]] + w[1..];
      (if IsReady(w[0]) then 1 else 0) + rest
  }

  /** `wishlist.reduce((sum, item) => sum + item.targetPriceSats, 0)`;
      reals, so the order of the additions does not matter. */
  function TotalTarget(w: seq<Item>): (t: real)
    ensures (forall x :: x in w ==> x.targetPriceSats >= 0.0) ==> t >= 0.0
  {
    if |w| == 0 then 0.0
    else
      assert w == [w[0]] + w[1..];
      w[0].targetPriceSats + TotalTarget(w[1..])
  }

  datatype Stats = Stats(count: nat, readyCount: nat, totalTarget: real)

  /** `stats`: the ready count never exceeds the count, items without a
      current price are never ready. */
  function ComputeStats(w: seq<Item>): (s: Stats)
    ensures s.count == |w|
    ensures s.readyCount <= s.count
    ensures (forall x :: x in w ==> x.currentPriceSats.None?) ==> s.readyCount == 0
    ensures s.readyCount == s.count <==> forall x :: x in w ==> IsReady(x)
    ensures s.readyCount == CountReady(w) && s.totalTarget == TotalTarget(w)
  {
    Stats(|w|, CountReady(w), TotalTarget(w))
  }

  /** A single item counts as ready exactly when it is, and adds its target. */
  lemma SingleItemStats(x: Item)
    ensures CountReady([x]) == if IsReady(x) then 1 else 0
    ensures TotalTarget([x]) == x.targetPriceSats
  {
    assert [x][1..] == [];
  }

  /** The ready count of a list is the sum of the ready counts of its parts. */
  lemma {:induction false} CountReadyAppend(a: seq<Item>, b: seq<Item>)
    ensures CountReady(a + b) == CountReady(a) + CountReady(b)
  {
    if |a| > 0 {
      assert (a + b)[1..] == a[1..] + b;
      CountReadyAppend(a[1..], b);
    } else {
      assert a + b == b;
    }
  }

  /** The target total of a list is the sum of the totals of its parts. */
  lemma {:induction false} TotalTargetAppend(a: seq<Item>, b: seq<Item>)
    ensures TotalTarget(a + b) == TotalTarget(a) + TotalTarget(b)
  {
    if |a| > 0 {
      assert (a + b)[1..] == a[1..] + b;
      TotalTargetAppend(a[1..], b);
    } else {
      assert a + b == b;
    }
  }

  /** The filter splits the raw list: what is shown and what is hidden add up
      to the raw count, ready count and target total. */
  lemma {:induction false} FilterPartitionsStats(raw: seq<Item>, deleted: seq<string>)
    ensures |Visible(raw, deleted)| + |Hidden(raw, deleted)| == |raw|
    ensures CountReady(Visible(raw, deleted)) + CountReady(Hidden(raw, deleted)) == CountReady(raw)
    ensures TotalTarget(Visible(raw, deleted)) + TotalTarget(Hidden(raw, deleted)) == TotalTarget(raw)
  {
    if |raw| > 0 {
      FilterPartitionsStats(raw[1..], deleted);
      var v := Visible(raw[1..], deleted);
      var h := Hidden(raw[1..], deleted);
      if raw[0].id in deleted {
        assert ([raw[0]] + h)[1..] == h;
      } else {
        assert ([raw[0]] + v)[1..] == v;
      }
    }
  }

  /** With nothing deleted the whole raw list is shown. */
  lemma {:induction false} NothingDeletedShowsAll(raw: seq<Item>)
    ensures Visible(raw, []) == raw
  {
    if |raw| > 0 {
      NothingDeletedShowsAll(raw[1..]);
      assert raw == [raw[0]] + raw[1..];
    }
  }

  /** The example of two items, `a` at 500000 sats with a current price of
      400000 sats and `b` at 1000000 sats with a current price above it. */
  lemma TwoItemExample(a: Item, b: Item)
    requires a.id == "a" && a.targetPriceSats == 500000.0 && a.currentPriceSats == Some(400000.0)
    requires b.id == "b" && b.targetPriceSats == 1000000.0 && b.currentPriceSats == Some(1200000.0)
    ensures ComputeStats([a, b]) == Stats(2, 1, 1500000.0)
    ensures IsReady(a) && !IsReady(b)
  {
    assert [a, b][1..] == [b];
    assert [b][1..] == [];
    assert CountReady([b]) == 0;
    assert TotalTarget([b]) == 1000000.0;
  }
}
