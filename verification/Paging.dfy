/** Reading an ordered table page by page, each page being what comes after the last row seen. */
module Paging {
  import opened Common

  function Filter<T>(xs: seq<T>, keep: T -> bool): seq<T> {
    if xs == [] then [] else (if keep(xs[0]) then [xs[0]] else []) + Filter(xs[1..], keep)
  }

  function Take<T>(xs: seq<T>, n: nat): (r: seq<T>)
    ensures r <= xs && |r| <= n && (r != xs ==> |r| == n)
  {
    if |xs| <= n then xs else xs[..n]
  }

  lemma {:induction false} FilterConcat<T>(a: seq<T>, b: seq<T>, keep: T -> bool)
    ensures Filter(a + b, keep) == Filter(a, keep) + Filter(b, keep)
    decreases |a|
  {
    if a == [] {
      assert a + b == b;
    } else {
      var h := if keep(a[0]) then [a[0]] else [];
      assert (a + b)[0] == a[0] && (a + b)[1..] == a[1..] + b;
      FilterConcat(a[1..], b, keep);
      assert h + (Filter(a[1..], keep) + Filter(b, keep)) == h + Filter(a[1..], keep) + Filter(b, keep);
    }
  }

  lemma FilterSnoc<T>(xs: seq<T>, i: nat, keep: T -> bool)
    requires i < |xs|
    ensures Filter(xs[..i + 1], keep) == Filter(xs[..i], keep) + (if keep(xs[i]) then [xs[i]] else [])
  {
    assert xs[..i + 1] == xs[..i] + [xs[i]];
    FilterConcat(xs[..i], [xs[i]], keep);
  }

  lemma {:induction false} FilterTrue<T>(xs: seq<T>, keep: T -> bool)
    requires forall x :: x in xs ==> keep(x)
    ensures Filter(xs, keep) == xs
    decreases |xs|
  {
    if xs != [] {
      assert xs[0] in xs && forall x :: x in xs[1..] ==> x in xs;
      FilterTrue(xs[1..], keep);
    }
  }

  lemma {:induction false} FilterEmpty<T>(xs: seq<T>, keep: T -> bool)
    ensures Filter(xs, keep) == [] <==> forall i :: 0 <= i < |xs| ==> !keep(xs[i])
    decreases |xs|
  {
    if xs != [] {
      FilterEmpty(xs[1..], keep);
      assert forall i :: 0 < i < |xs| ==> xs[i] == xs[1..][i - 1];
      assert forall i :: 0 <= i < |xs[1..]| ==> xs[1..][i] == xs[i + 1];
    }
  }

  lemma {:induction false} FilterMembers<T>(xs: seq<T>, keep: T -> bool)
    ensures forall x :: x in Filter(xs, keep) <==> x in xs && keep(x)
    decreases |xs|
  {
    if xs != [] {
      FilterMembers(xs[1..], keep);
      assert forall x :: x in xs <==> x == xs[0] || x in xs[1..];
    }
  }

  // ----- a reader that lets the query drop rows after LIMIT

  /** The index of the last kept row, if there is one. */
  function LastKept<T>(xs: seq<T>, keep: T -> bool): (k: Option<nat>)
    ensures k.Some? ==> k.value < |xs| && keep(xs[k.value])
    ensures forall j :: (if k.Some? then k.value else -1) < j < |xs| ==> !keep(xs[j])
  {
    if xs == [] then None
    else if keep(xs[|xs| - 1]) then Some(|xs| - 1)
    else
      var n := |xs| - 1;
      assert forall j :: 0 <= j < n ==> xs[..n][j] == xs[j];
      LastKept(xs[..n], keep)
  }

  /**
   Pages of n rows are fetched and only then filtered; the reader's cursor moves to the last row it is given,
   and it stops at an empty page. pending are the rows still to come.
   */
  function Pull<T>(pending: seq<T>, n: nat, keep: T -> bool): seq<T>
    requires n > 0
    decreases |pending|
  {
    var fetched := Take(pending, n);
    match LastKept(fetched, keep)
    case None => []
    case Some(k) => Filter(fetched, keep) + Pull(pending[k + 1..], n, keep)
  }

  /** Every kept row comes within n rows of the previous one, or of the start. */
  ghost predicate NoGap<T>(pending: seq<T>, n: nat, keep: T -> bool) {
    forall i :: n <= i < |pending| && keep(pending[i]) ==> KeptWithin(pending, n, keep, i)
  }

  ghost predicate KeptWithin<T>(pending: seq<T>, n: nat, keep: T -> bool, i: nat)
    requires n <= i < |pending|
  {
    exists j :: i - n <= j < i && keep(pending[j])
  }

  lemma DropPrefix<T>(pending: seq<T>, n: nat, keep: T -> bool, k: nat)
    requires k < n && k < |pending| && keep(pending[k])
    ensures NoGap(pending, n, keep) <==> NoGap(pending[k + 1..], n, keep)
  {
    var rest := pending[k + 1..];
    if NoGap(pending, n, keep) {
      forall i | n <= i < |rest| && keep(rest[i])
        ensures KeptWithin(rest, n, keep, i)
      {
        assert KeptWithin(pending, n, keep, k + 1 + i);
        var j :| k + 1 + i - n <= j < k + 1 + i && keep(pending[j]);
        assert pending[j] == rest[j - k - 1];
      }
    }
    if NoGap(rest, n, keep) {
      forall i | n <= i < |pending| && keep(pending[i])
        ensures KeptWithin(pending, n, keep, i)
      {
        var m := i - k - 1;
        if m >= n {
          assert rest[m] == pending[i] && KeptWithin(rest, n, keep, m);
          var j :| m - n <= j < m && keep(rest[j]);
          assert rest[j] == pending[k + 1 + j];
        }
      }
    }
  }

  lemma {:induction false} FirstKeptIsFar<T>(pending: seq<T>, n: nat, keep: T -> bool, i: nat)
    requires n <= i < |pending| && keep(pending[i])
    requires forall j :: 0 <= j < n ==> !keep(pending[j])
    ensures !NoGap(pending, n, keep)
    decreases i
  {
    if j :| i - n <= j < i && keep(pending[j]) {
      FirstKeptIsFar(pending, n, keep, j);
    }
  }

  lemma FilterSplit<T>(xs: seq<T>, i: nat, keep: T -> bool)
    requires i <= |xs|
    ensures Filter(xs, keep) == Filter(xs[..i], keep) + Filter(xs[i..], keep)
  {
    assert xs == xs[..i] + xs[i..];
    FilterConcat(xs[..i], xs[i..], keep);
  }

  lemma TakePrefix<T>(xs: seq<T>, n: nat, i: nat)
    requires i <= |Take(xs, n)|
    ensures i <= |xs| && Take(xs, n)[..i] == xs[..i]
  {
  }

  /** A page with a kept row gives exactly the kept rows up to that row. */
  lemma PageSplits<T>(pending: seq<T>, n: nat, keep: T -> bool, k: nat)
    requires n > 0 && LastKept(Take(pending, n), keep) == Some(k)
    ensures Filter(pending, keep) == Filter(Take(pending, n), keep) + Filter(pending[k + 1..], keep)
    ensures Filter(Take(pending, n), keep) == Filter(Take(pending, n)[..k], keep) + [pending[k]]
  {
    KeptPrefix(Take(pending, n), keep, k);
    TakePrefix(pending, n, k + 1);
    FilterSplit(pending, k + 1, keep);
  }

  lemma KeptPrefix<T>(xs: seq<T>, keep: T -> bool, k: nat)
    requires k < |xs| && keep(xs[k]) && forall j :: k < j < |xs| ==> !keep(xs[j])
    ensures Filter(xs, keep) == Filter(xs[..k + 1], keep) == Filter(xs[..k], keep) + [xs[k]]
  {
    FilterSplit(xs, k + 1, keep);
    FilterEmpty(xs[k + 1..], keep);
    FilterSnoc(xs, k, keep);
  }

  /** Filtering after LIMIT loses nothing exactly when no stretch of dropped rows fills a page before a kept one. */
  lemma {:induction false} PullExact<T>(pending: seq<T>, n: nat, keep: T -> bool)
    requires n > 0
    ensures Pull(pending, n, keep) == Filter(pending, keep) <==> NoGap(pending, n, keep)
    decreases |pending|
  {
    var fetched := Take(pending, n);
    match LastKept(fetched, keep)
    case None =>
      FilterEmpty(pending, keep);
      if i :| 0 <= i < |pending| && keep(pending[i]) {
        FirstKeptIsFar(pending, n, keep, i);
      }
    case Some(k) =>
      var after := pending[k + 1..];
      PageSplits(pending, n, keep, k);
      DropPrefix(pending, n, keep, k);
      PullExact(after, n, keep);
      SameHead(Filter(fetched, keep), Pull(after, n, keep), Filter(after, keep));
  }
}
