/**
 The cursor of `io_service_pool`: what a run of `get_io_service` calls returns.
 Services are named by their index in the pool.
 */
module RoundRobin {
  import opened Arithmetic

  /** The cursor after one call: incremented, and reset when it reaches the pool size. */
  function Advance(size: nat, next: nat): nat {
    if next + 1 == size then 0 else next + 1
  }

  /** The services returned by `w` calls in a row, starting with the cursor at `next`. */
  function Draws(size: nat, next: nat, w: nat): (r: seq<nat>)
    ensures |r| == w
    decreases w
  {
    if w == 0 then [] else [next] + Draws(size, Advance(size, next), w - 1)
  }

  function Count(s: seq<nat>, v: nat): nat {
    if s == [] then 0 else (if s[0] == v then 1 else 0) + Count(s[1..], v)
  }

  lemma AdvanceIsModular(n: nat, a: nat)
    requires n > 0
    ensures Advance(n, a % n) == (a + 1) % n
  {
    var q := a / n;
    assert a == n * q + a % n;
    if a % n + 1 == n {
      assert n * (q + 1) == n * q + n;
      QuotientIs(a + 1, n, q + 1);
    } else {
      QuotientIs(a + 1, n, q);
    }
  }

  // ---------------------------------------------------------------- results

  /** The k-th call of a run returns the service k places further round the pool. */
  lemma {:induction false} DrawsGoRound(n: nat, a: nat, w: nat, k: nat)
    requires n > 0 && k < w
    ensures Draws(n, a % n, w)[k] == (a + k) % n
    decreases w
  {
    if k > 0 {
      AdvanceIsModular(n, a);
      DrawsGoRound(n, a + 1, w - 1, k - 1);
    }
  }

  /** How many calls it takes from cursor `next` until service `v` is returned. */
  function Distance(n: nat, next: nat, v: nat): nat
    requires next < n && v < n
  {
    if next <= v then v - next else v + n - next
  }

  /** Exactly how often a service is returned by `w` calls in a row. */
  lemma {:induction false} DrawCount(n: nat, next: nat, w: nat, v: nat)
    requires next < n && v < n
    ensures Count(Draws(n, next, w), v) == (w + (n - 1 - Distance(n, next, v))) / n
    decreases w
  {
    var d := Distance(n, next, v);
    if w == 0 {
      QuotientIs(n - 1 - d, n, 0);
    } else {
      var rest := Draws(n, Advance(n, next), w - 1);
      DrawCount(n, Advance(n, next), w - 1, v);
      assert ([next] + rest)[1..] == rest;
      if v == next {
        AddOneRound(w - 1, n);
      }
    }
  }

  lemma DrawCountBounds(n: nat, next: nat, w: nat, v: nat)
    requires next < n && v < n
    ensures w / n <= Count(Draws(n, next, w), v) <= (w + n - 1) / n
  {
    hide Count, Draws;
    var spare := n - 1 - Distance(n, next, v);
    DrawCount(n, next, w, v);
    QuotientMonotone(w, w + spare, n);
    QuotientMonotone(w + spare, w + n - 1, n);
  }

  /** FAIRNESS. In any window of `w` consecutive calls after the first `a`, each of the `n`
      services is returned floor(w/n) or ceil(w/n) times. */
  lemma WindowFairness(n: nat, a: nat, w: nat, v: nat)
    requires v < n
    ensures w / n <= Count(Draws(n, 0, a + w)[a..], v) <= (w + n - 1) / n
  {
    QuotientIs(0, n, 0);
    WindowIsARun(n, 0, a, w);
    DrawCountBounds(n, a % n, w, v);
  }

  lemma {:induction false} WindowIsARun(n: nat, b: nat, a: nat, w: nat)
    requires n > 0
    ensures Draws(n, b % n, a + w)[a..] == Draws(n, (b + a) % n, w)
    decreases a
  {
    if a == 0 {
      assert Draws(n, b % n, w)[0..] == Draws(n, b % n, w);
    } else {
      var rest := Draws(n, Advance(n, b % n), a + w - 1);
      AdvanceIsModular(n, b);
      WindowIsARun(n, b + 1, a - 1, w);
      assert ([b % n] + rest)[a..] == rest[a - 1..];
    }
  }

  /** Over any window two services are never more than one call apart. */
  lemma WindowBalance(n: nat, a: nat, w: nat, u: nat, v: nat)
    requires u < n && v < n
    ensures Count(Draws(n, 0, a + w)[a..], u) <= Count(Draws(n, 0, a + w)[a..], v) + 1
  {
    WindowFairness(n, a, w, u);
    WindowFairness(n, a, w, v);
    AddOneRound(w, n);
    QuotientMonotone(w + n - 1, w + n, n);
  }
}
