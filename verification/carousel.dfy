/**
 * The image carousel of the detail view: moving the current image index
 * forward and backward with wrap-around over `n` images.
 */
module Carousel {

  /** The remainder is determined by any decomposition `a == n * q + r`
      with `0 <= r < n`. */
  lemma ModUnique(a: int, n: int, q: int, r: int)
    requires n > 0 && 0 <= r < n && a == n * q + r
    ensures a % n == r
  {
    var d := q - a / n;
    assert n * d == a % n - r;
  }

  /** JavaScript's `%` for a positive divisor: a truncated remainder, which
      takes the sign of the dividend (Dafny's own `%` is Euclidean). */
  function JsRem(a: int, n: int): (r: int)
    requires n > 0
    ensures a >= 0 ==> 0 <= r < n && exists q :: a == n * q + r
    ensures a < 0 ==> -n < r <= 0 && exists q :: a == n * q + r
  {
    if a >= 0 then
      assert a == n * (a / n) + a % n;
      a % n
    else
      assert -a == n * (-a / n) + (-a) % n;
      assert a == n * (-(-a / n)) - (-a) % n;
      -((-a) % n)
  }

  /** `(prev + 1) % n`. From any non-negative index the result is a valid
      index; from a valid index it is the following one, wrapping from the
      last to the first. */
  function NextIndex(i: nat, n: nat): (r: nat)
    requires n > 0
    ensures r < n
    ensures i < n ==> r == if i == n - 1 then 0 else i + 1
  {
    var r := JsRem(i + 1, n);
    assert i < n ==> r == if i == n - 1 then 0 else i + 1 by {
      if i < n {
        if i == n - 1 { ModUnique(i + 1, n, 1, 0); } else { ModUnique(i + 1, n, 0, i + 1); }
      }
    }
    r
  }

  /** `(prev - 1 + n) % n`. From any non-negative index the result is a
      valid index; from a valid index it is the preceding one, wrapping from
      the first to the last. */
  function PreviousIndex(i: nat, n: nat): (r: nat)
    requires n > 0
    ensures r < n
    ensures i < n ==> r == if i == 0 then n - 1 else i - 1
  {
    var r := JsRem(i - 1 + n, n);
    assert i < n ==> r == if i == 0 then n - 1 else i - 1 by {
      if i < n {
        if i == 0 { ModUnique(n - 1, n, 0, n - 1); } else { ModUnique(i - 1 + n, n, 1, i - 1); }
      }
    }
    r
  }

  /** Going back after going forward returns to the same image, and so does
      going forward after going back. */
  lemma NextPreviousInverse(i: nat, n: nat)
    requires i < n
    ensures PreviousIndex(NextIndex(i, n), n) == i
    ensures NextIndex(PreviousIndex(i, n), n) == i
  {
  }

  /** The index after pressing "next" `k` times. */
  function Forward(i: nat, n: nat, k: nat): (r: nat)
    requires n > 0
    decreases k
  {
    if k == 0 then i else NextIndex(Forward(i, n, k - 1), n)
  }

  /** One more step: the remainder of `m + 1` is the remainder of `m`
      advanced by one, wrapping at `n`. */
  lemma ModStep(m: nat, n: nat)
    requires n > 0
    ensures 0 <= m % n < n
    ensures (m + 1) % n == if m % n == n - 1 then 0 else m % n + 1
  {
    var q, j := m / n, m % n;
    if j == n - 1 {
      assert m + 1 == n * (q + 1) + 0;
      ModUnique(m + 1, n, q + 1, 0);
    } else {
      assert m + 1 == n * q + (j + 1);
      ModUnique(m + 1, n, q, j + 1);
    }
  }

  /** Pressing "next" `k` times from a valid index advances it by `k`
      modulo `n`. */
  lemma {:induction false} ForwardAdvances(i: nat, n: nat, k: nat)
    requires i < n
    ensures Forward(i, n, k) == (i + k) % n
    decreases k
  {
    if k > 0 {
      ForwardAdvances(i, n, k - 1);
      ModStep(i + k - 1, n);
    }
  }

  /** Pressing "next" `n` times over `n` images comes back to the start. */
  lemma FullCycle(i: nat, n: nat)
    requires i < n
    ensures Forward(i, n, n) == i
  {
    ForwardAdvances(i, n, n);
    ModUnique(i + n, n, 1, i);
  }

  /** The navigation buttons are rendered only for more than one image. */
  predicate ShowControls(images: seq<string>)
    ensures |images| <= 1 ==> !ShowControls(images)
    ensures ShowControls(images) ==> |images| > 0 && NextIndex(0, |images|) == 1 && PreviousIndex(1, |images|) == 0
  {
    |images| > 1
  }
}
