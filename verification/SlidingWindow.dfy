/** A bounded first-in-first-out window of remembered values, as the idempotency and trace indexes keep it. */
module SlidingWindow {
  import opened Types

  /** The last `n` elements, or all of them if there are fewer. */
  function LastOf<T>(s: seq<T>, n: nat): seq<T> {
    if |s| <= n then s else s[|s| - n..]
  }

  /** One presentation of `x`: ignored if remembered, otherwise remembered at the back. */
  function Offer<T(==)>(bucket: seq<T>, x: T, limit: nat): seq<T> {
    if x in bucket then bucket else LastOf(bucket + [x], limit)
  }

  /** Reference: the subsequence of presented values that were not among the last `limit` accepted ones. */
  function Accepted<T(==)>(xs: seq<T>, limit: nat): seq<T> {
    if xs == [] then []
    else
      var before := Accepted(xs[..|xs| - 1], limit);
      var x := xs[|xs| - 1];
      if x in LastOf(before, limit) then before else before + [x]
  }

  function Bucket<T(==)>(xs: seq<T>, limit: nat): seq<T> {
    if xs == [] then [] else Offer(Bucket(xs[..|xs| - 1], limit), xs[|xs| - 1], limit)
  }

  lemma LastOfSnoc<T>(s: seq<T>, x: T, n: nat)
    requires n >= 1
    ensures LastOf(LastOf(s, n) + [x], n) == LastOf(s + [x], n)
  {
  }

  lemma SnocStaysDistinct<T>(s: seq<T>, x: T, n: nat)
    requires Distinct(s) && x !in s
    ensures Distinct(LastOf(s + [x], n)) && |LastOf(s + [x], n)| <= n
  {
    assert forall i :: 0 <= i < |s| ==> s[i] in s;
    assert Distinct(s + [x]);
  }

  lemma LastOfHas<T>(s: seq<T>, n: nat, i: nat)
    requires i < |s|
    ensures |s| - n <= i ==> s[i] in LastOf(s, n)
  {
    if |s| - n <= i && |s| > n {
      assert LastOf(s, n)[i - (|s| - n)] == s[i];
    }
  }

  /** The bucket is exactly the last `limit` accepted values, and they are all different. */
  lemma {:induction false} BucketIsWindow<T>(xs: seq<T>, limit: nat)
    requires limit >= 1
    ensures Bucket(xs, limit) == LastOf(Accepted(xs, limit), limit)
    ensures Distinct(Bucket(xs, limit)) && |Bucket(xs, limit)| <= limit
  {
    if xs != [] {
      var init, x := xs[..|xs| - 1], xs[|xs| - 1];
      BucketIsWindow(init, limit);
      var before, window := Accepted(init, limit), Bucket(init, limit);
      if x !in window {
        LastOfSnoc(before, x, limit);
        SnocStaysDistinct(window, x, limit);
      }
    }
  }

  /** A value accepted twice was forgotten in between: `limit` other values were accepted after it. */
  lemma {:induction false} RepeatsAreFarApart<T>(xs: seq<T>, limit: nat, i: nat, j: nat)
    requires limit >= 1 && i < j < |Accepted(xs, limit)|
    requires Accepted(xs, limit)[i] == Accepted(xs, limit)[j]
    ensures j - i > limit
  {
    var init, x := xs[..|xs| - 1], xs[|xs| - 1];
    var before := Accepted(init, limit);
    if j < |before| {
      RepeatsAreFarApart(init, limit, i, j);
    } else {
      LastOfHas(before, limit, i);
    }
  }

  lemma PresentOneMore<T>(xs: seq<T>, x: T, limit: nat)
    ensures Bucket(xs + [x], limit) == Offer(Bucket(xs, limit), x, limit)
    ensures Accepted(xs + [x], limit) ==
            if x in LastOf(Accepted(xs, limit), limit) then Accepted(xs, limit) else Accepted(xs, limit) + [x]
  {
    assert (xs + [x])[..|xs|] == xs;
  }

  /** `b` extends `a` by elements of `ys`. */
  predicate ExtendsBy<T(==)>(a: seq<T>, b: seq<T>, ys: seq<T>) {
    a <= b && forall i :: |a| <= i < |b| ==> b[i] in ys
  }

  lemma ExtendsByOneMore<T>(a: seq<T>, b: seq<T>, ys: seq<T>, y: T)
    requires ExtendsBy(a, b, ys)
    ensures ExtendsBy(a, b, ys + [y]) && ExtendsBy(a, b + [y], ys + [y])
  {
  }

  lemma AcceptedGrowsOne<T>(a: seq<T>, xs: seq<T>, ys: seq<T>, y: T, limit: nat)
    requires ExtendsBy(a, Accepted(xs, limit), ys)
    ensures ExtendsBy(a, Accepted(xs + [y], limit), ys + [y])
  {
    PresentOneMore(xs, y, limit);
    ExtendsByOneMore(a, Accepted(xs, limit), ys, y);
  }

  lemma SplitLast<T>(xs: seq<T>, ys: seq<T>)
    requires ys != []
    ensures var init, y := ys[..|ys| - 1], ys[|ys| - 1];
            ys == init + [y] && xs + ys == xs + init + [y]
  {
  }

  /** Acceptances are never taken back, and later ones are of later values. */
  lemma {:induction false} AcceptedGrows<T>(xs: seq<T>, ys: seq<T>, limit: nat)
    ensures ExtendsBy(Accepted(xs, limit), Accepted(xs + ys, limit), ys)
  {
    if ys == [] {
      assert xs + ys == xs;
    } else {
      var init, y := ys[..|ys| - 1], ys[|ys| - 1];
      AcceptedGrows(xs, init, limit);
      AcceptedGrowsOne(Accepted(xs, limit), xs + init, init, y, limit);
      SplitLast(xs, ys);
    }
  }

  /** A newly accepted value is remembered exactly until `limit` others were accepted, unless it comes again. */
  lemma RememberedUntil<T>(xs: seq<T>, x: T, ys: seq<T>, limit: nat)
    requires limit >= 1 && x !in Bucket(xs, limit)
    ensures var since := |Accepted(xs + [x] + ys, limit)| - |Accepted(xs + [x], limit)|;
            && (0 <= since < limit ==> x in Bucket(xs + [x] + ys, limit))
            && (since >= limit && x !in ys ==> x !in Bucket(xs + [x] + ys, limit))
  {
    BucketIsWindow(xs, limit);
    BucketIsWindow(xs + [x] + ys, limit);
    AcceptedGrows(xs + [x], ys, limit);
    assert (xs + [x])[..|xs|] == xs;
    var a, b := Accepted(xs + [x], limit), Accepted(xs + [x] + ys, limit);
    assert b[|a| - 1] == x;
    LastOfHas(b, limit, |a| - 1);
  }
}
