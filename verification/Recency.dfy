/** Use histories and their recency lists: the reference for a least-recently-used cache. */
module Recency {
  import opened Types

  function Without<T(==, !new)>(s: seq<T>, x: T): (r: seq<T>)
    ensures |r| <= |s|
  {
    if s == [] then [] else (if s[0] == x then [] else [s[0]]) + Without(s[1..], x)
  }

  lemma {:induction false} WithoutMembers<T(!new)>(s: seq<T>, x: T)
    ensures forall y :: y in Without(s, x) <==> y in s && y != x
  {
    if s != [] {
      WithoutMembers(s[1..], x);
      assert s == [s[0]] + s[1..];
    }
  }

  function Take<T>(s: seq<T>, n: nat): seq<T> {
    if |s| <= n then s else s[..n]
  }

  lemma TakeDistinct<T>(s: seq<T>, n: nat)
    requires Distinct(s)
    ensures Distinct(Take(s, n))
  {
  }

  lemma {:induction false} WithoutConcat<T(!new)>(a: seq<T>, b: seq<T>, x: T)
    ensures Without(a + b, x) == Without(a, x) + Without(b, x)
  {
    if a == [] {
      assert a + b == b;
    } else {
      assert (a + b)[1..] == a[1..] + b;
      WithoutConcat(a[1..], b, x);
    }
  }

  lemma {:induction false} WithoutAbsent<T(!new)>(s: seq<T>, x: T)
    requires x !in s
    ensures Without(s, x) == s
  {
    if s != [] {
      WithoutAbsent(s[1..], x);
    }
  }

  lemma {:induction false} WithoutOne<T(!new)>(s: seq<T>, x: T)
    requires Distinct(s) && x in s
    ensures |Without(s, x)| == |s| - 1
  {
    if s[0] == x {
      assert forall i :: 0 < i < |s| ==> s[i] != x;
      WithoutAbsent(s[1..], x);
    } else {
      WithoutOne(s[1..], x);
    }
  }

  lemma {:induction false} WithoutDistinct<T(!new)>(s: seq<T>, x: T)
    requires Distinct(s)
    ensures Distinct(Without(s, x))
  {
    if s != [] {
      WithoutDistinct(s[1..], x);
      WithoutMembers(s[1..], x);
      var rest := Without(s[1..], x);
      if s[0] != x {
        forall j | 0 <= j < |rest| ensures rest[j] != s[0] {
          assert rest[j] in rest;
        }
      }
    }
  }

  /** The keys of a history, most recently used first, each once. */
  function ByRecency<T(==, !new)>(uses: seq<T>): seq<T> {
    if uses == [] then []
    else
      var k := uses[|uses| - 1];
      [k] + Without(ByRecency(uses[..|uses| - 1]), k)
  }

  /** `i` is the position of the last use of `k`. */
  predicate LastUse<T(==, !new)>(uses: seq<T>, k: T, i: nat) {
    i < |uses| && uses[i] == k && k !in uses[i + 1..]
  }

  lemma {:induction false} RecencyDistinct<T(!new)>(uses: seq<T>)
    ensures Distinct(ByRecency(uses))
    ensures forall k :: k in ByRecency(uses) <==> k in uses
  {
    if uses != [] {
      var n := |uses| - 1;
      var init, k := uses[..n], uses[n];
      assert uses == init + [k];
      RecencyDistinct(init);
      WithoutDistinct(ByRecency(init), k);
      WithoutMembers(ByRecency(init), k);
      var rest := Without(ByRecency(init), k);
      assert forall j :: 0 <= j < |rest| ==> rest[j] in rest;
    }
  }

  lemma LastUseBefore<T(!new)>(uses: seq<T>, a: T, i: nat)
    requires uses != [] && LastUse(uses, a, i) && a != uses[|uses| - 1]
    ensures LastUse(uses[..|uses| - 1], a, i)
  {
    var n := |uses| - 1;
    assert uses[i + 1..] == uses[..n][i + 1..] + [uses[n]];
  }

  /** Below the front, the list is that of the shorter history without the last key. */
  lemma RecencyTail<T(!new)>(uses: seq<T>, q: nat)
    requires 0 < q < |ByRecency(uses)|
    ensures var init, k := uses[..|uses| - 1], uses[|uses| - 1];
            && q - 1 < |Without(ByRecency(init), k)|
            && ByRecency(uses)[q] == Without(ByRecency(init), k)[q - 1] != k
  {
    var init, k := uses[..|uses| - 1], uses[|uses| - 1];
    WithoutMembers(ByRecency(init), k);
    assert Without(ByRecency(init), k)[q - 1] in Without(ByRecency(init), k);
  }

  /** Earlier in the recency list means used later in the history. */
  lemma {:induction false} RecencyOrdered<T(!new)>(uses: seq<T>, p: nat, q: nat, i: nat, j: nat)
    requires p < q < |ByRecency(uses)|
    requires LastUse(uses, ByRecency(uses)[p], i) && LastUse(uses, ByRecency(uses)[q], j)
    ensures i > j
  {
    var n := |uses| - 1;
    var init, k := uses[..n], uses[n];
    RecencyTail(uses, q);
    LastUseBefore(uses, ByRecency(uses)[q], j);
    if p == 0 {
      assert i == n;
    } else {
      RecencyTail(uses, p);
      LastUseBefore(uses, ByRecency(uses)[p], i);
      var p', q' := WithoutKeepsOrder(ByRecency(init), k, p - 1, q - 1);
      RecencyOrdered(init, p', q', i, j);
    }
  }

  lemma {:induction false} WithoutKeepsOrder<T(!new)>(s: seq<T>, x: T, p: nat, q: nat) returns (p': nat, q': nat)
    requires p < q < |Without(s, x)|
    ensures p' < q' < |s| && s[p'] == Without(s, x)[p] && s[q'] == Without(s, x)[q]
  {
    var rest := Without(s[1..], x);
    if s[0] == x {
      p', q' := WithoutKeepsOrder(s[1..], x, p, q);
      p', q' := p' + 1, q' + 1;
    } else if p == 0 {
      p' := 0;
      WithoutMembers(s[1..], x);
      var r := rest[q - 1];
      assert r in rest && r in s[1..];
      q' :| 0 < q' < |s| && s[q'] == r;
    } else {
      p', q' := WithoutKeepsOrder(s[1..], x, p - 1, q - 1);
      p', q' := p' + 1, q' + 1;
    }
  }

  /** Truncating to the newest `n` keys and then using one more loses nothing the full list would keep. */
  lemma TruncatedUse<T(!new)>(s: seq<T>, x: T, n: nat)
    requires Distinct(s) && n > 0
    ensures Take([x] + Without(Take(s, n), x), n) == Take([x] + Without(s, x), n)
  {
    if |s| > n {
      var a, b := s[..n], s[n..];
      assert s == a + b;
      WithoutConcat(a, b, x);
      if x in a {
        WithoutOne(a, x);
      } else {
        WithoutAbsent(a, x);
      }
    }
  }
}
