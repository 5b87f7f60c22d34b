/**
 Several broadcasts in a row while no session changes its `closed` flag: how fast closed
 sessions disappear, and how often an open session goes without a message meanwhile.
 */
module RepeatedBroadcasts {
  import opened Arithmetic
  import opened Broadcast
  import opened Sequences

  function Pow2(t: nat): (p: nat)
    ensures p > 0
  {
    if t == 0 then 1 else 2 * Pow2(t - 1)
  }

  /** `t` broadcasts in a row are well defined. */
  predicate DefinedFor<T>(es: seq<Entry<T>>, t: nat)
    decreases t
  {
    t == 0 || (WalkDefined(es) && DefinedFor(Survivors(es), t - 1))
  }

  /** The list after `t` broadcasts. */
  function After<T>(es: seq<Entry<T>>, t: nat): seq<Entry<T>>
    requires DefinedFor(es, t)
    decreases t
  {
    if t == 0 then es else After(Survivors(es), t - 1)
  }

  predicate NoClosed<T>(es: seq<Entry<T>>) {
    forall i :: 0 <= i < |es| ==> !es[i].closed
  }

  // ---------------------------------------------------------------- arithmetic of halving

  lemma HalfThenDivide(a: nat, t: nat)
    ensures (a / 2) / Pow2(t) == a / Pow2(t + 1)
    ensures (a % 2 == 0 && (a / 2) % Pow2(t) == 0) <==> a % Pow2(t + 1) == 0
  {
    var p, h := Pow2(t), a / 2;
    var q, r := h / p, h % p;
    assert h == p * q + r;
    assert a == (2 * p) * q + (2 * r + a % 2);
    QuotientIs(a, 2 * p, q);
  }

  // ---------------------------------------------------------------- what t broadcasts leave

  /** HALVING, repeated. After `t` broadcasts every open session is still there, in order, and
      every run of m closed sessions is down to floor(m / 2^t). */
  lemma {:induction false} GapsAfter<T>(es: seq<Entry<T>>, t: nat)
    requires DefinedFor(es, t)
    ensures Opens(After(es, t)) == Opens(es)
    ensures |Gaps(After(es, t))| == |Gaps(es)|
    ensures forall i :: 0 <= i < |Gaps(es)| ==> Gaps(After(es, t))[i] == Gaps(es)[i] / Pow2(t)
    decreases t
  {
    if t > 0 {
      BroadcastHalvesGaps(es);
      GapsAfter(Survivors(es), t - 1);
      forall i | 0 <= i < |Gaps(es)|
        ensures Gaps(After(es, t))[i] == Gaps(es)[i] / Pow2(t)
      {
        HalfThenDivide(Gaps(es)[i], t - 1);
      }
    }
  }

  /** `t` broadcasts in a row are well defined if and only if 2^t divides the number of closed
      sessions at the end of the list; for ever, when the last session is open. */
  lemma {:induction false} DefinedForIffDivides<T>(es: seq<Entry<T>>, t: nat)
    ensures DefinedFor(es, t) <==> Last(Gaps(es)) % Pow2(t) == 0
    decreases t
  {
    if t > 0 {
      WalkDefinedIffEvenTail(es);
      HalfThenDivide(Last(Gaps(es)), t - 1);
      if WalkDefined(es) {
        BroadcastHalvesGaps(es);
        DefinedForIffDivides(Survivors(es), t - 1);
      }
    }
  }

  predicate NoGaps(g: seq<nat>) {
    forall i :: 0 <= i < |g| ==> g[i] == 0
  }

  lemma NoGapsOfCons(x: nat, g: seq<nat>)
    ensures NoGaps([x] + g) <==> x == 0 && NoGaps(g)
  {
    assert ([x] + g)[0] == x;
    if NoGaps([x] + g) {
      forall i | 0 <= i < |g|
        ensures g[i] == 0
      {
        assert ([x] + g)[i + 1] == g[i];
      }
    }
  }

  lemma NoClosedOfCons<T>(e: Entry<T>, es: seq<Entry<T>>)
    ensures NoClosed([e] + es) <==> !e.closed && NoClosed(es)
    ensures Whos([e] + es) == [e.who] + Whos(es)
  {
    assert ([e] + es)[0] == e;
    if NoClosed([e] + es) {
      forall i | 0 <= i < |es|
        ensures !es[i].closed
      {
        assert ([e] + es)[i + 1] == es[i];
      }
    }
  }

  lemma {:induction false} NoClosedIffNoGaps<T>(es: seq<Entry<T>>)
    ensures NoClosed(es) <==> NoGaps(Gaps(es))
    ensures NoClosed(es) ==> Whos(es) == Opens(es)
    decreases |es|
  {
    if es != [] {
      var e, rest := es[0], es[1..];
      var g := Gaps(rest);
      assert es == [e] + rest;
      NoClosedIffNoGaps(rest);
      GapsOfCons(e, rest);
      NoClosedOfCons(e, rest);
      hide Gaps, Opens, NoClosed, NoGaps, Whos;
      NoGapsOfCons(if e.closed then g[0] + 1 else 0, if e.closed then g[1..] else g);
    }
  }

  /** CLEARED. After `t` broadcasts no closed session is left exactly when 2^t exceeds every run
      of closed sessions; the list then holds the open sessions, in their original order. */
  lemma ClearedIffPowerExceedsRuns<T>(es: seq<Entry<T>>, t: nat)
    requires DefinedFor(es, t)
    ensures NoClosed(After(es, t)) <==> forall i :: 0 <= i < |Gaps(es)| ==> Gaps(es)[i] < Pow2(t)
    ensures NoClosed(After(es, t)) ==> Whos(After(es, t)) == Opens(es)
  {
    GapsAfter(es, t);
    NoClosedIffNoGaps(After(es, t));
    forall i | 0 <= i < |Gaps(es)|
      ensures Gaps(After(es, t))[i] == 0 <==> Gaps(es)[i] < Pow2(t)
    {
      ZeroQuotientIffBelow(Gaps(es)[i], Pow2(t));
    }
  }

  // ---------------------------------------------------------------- messages missed

  /** How many of the next `t` broadcasts do not reach the open session number `k`. */
  ghost function Missed<T>(es: seq<Entry<T>>, k: nat, t: nat): nat
    requires DefinedFor(es, t)
    requires k < |Opens(es)|
    decreases t
  {
    if t == 0 then 0
    else
      BroadcastHalvesGaps(es);
      (if Opens(es)[k] in Recipients(es) then 0 else 1) + Missed(Survivors(es), k, t - 1)
  }

  /** The number of ones in the binary form of `n`. */
  function BinaryOnes(n: nat): nat {
    if n == 0 then 0 else n % 2 + BinaryOnes(n / 2)
  }

  lemma {:induction false} InBehindEvenGaps<T>(opens: seq<T>, gaps: seq<nat>, k: nat)
    requires |gaps| == |opens| + 1 && k < |opens| && Distinct(opens)
    ensures opens[k] in BehindEvenGaps(opens, gaps) <==> gaps[k] % 2 == 0
    decreases |opens|
  {
    BehindAreOpens(opens[1..], gaps[1..]);
    if k > 0 {
      InBehindEvenGaps(opens[1..], gaps[1..], k - 1);
      assert opens[0] != opens[k] == opens[1..][k - 1];
    } else {
      assert forall x :: x in BehindEvenGaps(opens[1..], gaps[1..]) ==> x in opens[1..] && x != opens[0];
    }
  }

  lemma {:induction false} BehindAreOpens<T>(opens: seq<T>, gaps: seq<nat>)
    requires |gaps| == |opens| + 1
    ensures forall x :: x in BehindEvenGaps(opens, gaps) ==> x in opens
    decreases |opens|
  {
    if opens != [] {
      BehindAreOpens(opens[1..], gaps[1..]);
    }
  }

  /** MISSES. While the closed sessions before it are being worked off, an open session misses
      one broadcast for every binary one of their number, and none after that. */
  lemma {:induction false} MissedIsBinaryOnes<T>(es: seq<Entry<T>>, k: nat, t: nat)
    requires DefinedFor(es, t)
    requires k < |Opens(es)| && Distinct(Opens(es))
    requires Gaps(es)[k] < Pow2(t)
    ensures Missed(es, k, t) == BinaryOnes(Gaps(es)[k])
    decreases t
  {
    if t > 0 {
      var next := Survivors(es);
      BroadcastHalvesGaps(es);
      DeliveryBehindEvenGaps(es);
      InBehindEvenGaps(Opens(es), Gaps(es), k);
      MissedIsBinaryOnes(next, k, t - 1);
    }
  }
}
