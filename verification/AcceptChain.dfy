/**
 The accept chain of `server`: one session is created ahead of each connection, started if the
 accept succeeds and deleted if it fails. Sessions are numbered in the order of their creation;
 services are named by their index in the pool.
 */
module AcceptChain {
  import opened Arithmetic
  import opened RoundRobin

  /** The capture server arms the next accept only after a success; the config server always. */
  datatype Kind = Capture | Config

  datatype Event = AcceptOk | AcceptFailed

  datatype Waiting = Nobody | Session(number: nat)

  /** `placed[k]` is the service of session k; `started` and `deleted` list session numbers, and
      `waiting` is the session the outstanding accept will fill. */
  datatype Chain = Chain(size: nat, next: nat, acceptorOn: nat,
                         placed: seq<nat>, started: seq<nat>, deleted: seq<nat>, waiting: Waiting)
  {
    /** Takes a service from the pool and creates a session on it, which waits for a connection. */
    function Create(): Chain {
      this.(next := Advance(size, next), placed := placed + [next], waiting := Session(|placed|))
    }
  }

  /** The constructor: one service for the acceptor, one for the first session. */
  function Opened(size: nat): Chain {
    Chain(size, Advance(size, 0), 0, [], [], [], Nobody).Create()
  }

  function Step(kind: Kind, s: Chain, e: Event): Chain
    requires s.waiting.Session?
  {
    match e
    case AcceptOk => s.(started := s.started + [s.waiting.number]).Create()
    case AcceptFailed =>
      var t := s.(deleted := s.deleted + [s.waiting.number], waiting := Nobody);
      if kind == Config then t.Create() else t
  }

  /** An accept can complete only while one is outstanding. */
  predicate Legal(kind: Kind, s: Chain, es: seq<Event>)
    decreases |es|
  {
    es == [] || (s.waiting.Session? && Legal(kind, Step(kind, s, es[0]), es[1..]))
  }

  function Run(kind: Kind, s: Chain, es: seq<Event>): Chain
    requires Legal(kind, s, es)
    decreases |es|
  {
    if es == [] then s else Run(kind, Step(kind, s, es[0]), es[1..])
  }

  function CountEvents(es: seq<Event>, e: Event): nat {
    if es == [] then 0 else (if es[0] == e then 1 else 0) + CountEvents(es[1..], e)
  }

  // ---------------------------------------------------------------- accounting and placement

  /** Every session created was started, was deleted, or is the newest one and still waiting,
      and it sits on the service the rotation gives it. */
  ghost predicate Accounted(s: Chain) {
    var n := |s.placed|;
    && s.size > 0 && s.acceptorOn == 0
    && s.next == (n + 1) % s.size
    && (forall k :: 0 <= k < n ==> s.placed[k] == (k + 1) % s.size)
    && n == |s.started| + |s.deleted| + (if s.waiting.Session? then 1 else 0)
    && (s.waiting.Session? ==> n > 0 && s.waiting.number == n - 1)
    && (forall k :: 0 <= k < n ==>
          (if k in s.started then 1 else 0) + (if k in s.deleted then 1 else 0)
          + (if s.waiting == Session(k) then 1 else 0) == 1)
    && (forall k :: k in s.started || k in s.deleted ==> k < n)
  }

  lemma OpenedIsAccounted(size: nat)
    requires size > 0
    ensures Accounted(Opened(size))
  {
    QuotientIs(0, size, 0);
    AdvanceIsModular(size, 0);
    AdvanceIsModular(size, 1);
  }

  lemma StepKeepsAccounts(kind: Kind, s: Chain, e: Event)
    requires Accounted(s) && s.waiting.Session?
    ensures Accounted(Step(kind, s, e))
  {
    AdvanceIsModular(s.size, |s.placed| + 1);
    var t := Step(kind, s, e);
    var w := s.waiting.number;
    assert forall k :: k in t.started <==> k in s.started || (e == AcceptOk && k == w);
    assert forall k :: k in t.deleted <==> k in s.deleted || (e == AcceptFailed && k == w);
  }

  lemma {:induction false} RunKeepsAccounts(kind: Kind, s: Chain, es: seq<Event>)
    requires Accounted(s) && Legal(kind, s, es)
    ensures Accounted(Run(kind, s, es)) && Run(kind, s, es).size == s.size
    ensures var t := Run(kind, s, es);
            && |t.started| == |s.started| + CountEvents(es, AcceptOk)
            && |t.deleted| == |s.deleted| + CountEvents(es, AcceptFailed)
    decreases |es|
  {
    if es != [] {
      StepKeepsAccounts(kind, s, es[0]);
      RunKeepsAccounts(kind, Step(kind, s, es[0]), es[1..]);
    }
  }

  /** ACCOUNTING. Over any run every session created has been started, or has been deleted, or
      is the newest one and waiting, and only one of these; as many have been started and deleted
      as accepts have succeeded and failed. */
  lemma SessionAccounting(kind: Kind, size: nat, es: seq<Event>)
    requires size > 0 && Legal(kind, Opened(size), es)
    ensures var s := Run(kind, Opened(size), es);
            && |s.placed| == |s.started| + |s.deleted| + (if s.waiting.Session? then 1 else 0)
            && |s.started| == CountEvents(es, AcceptOk) && |s.deleted| == CountEvents(es, AcceptFailed)
            && (forall k :: 0 <= k < |s.placed| ==>
                  (if k in s.started then 1 else 0) + (if k in s.deleted then 1 else 0)
                  + (if s.waiting == Session(k) then 1 else 0) == 1)
  {
    OpenedIsAccounted(size);
    RunKeepsAccounts(kind, Opened(size), es);
  }

  /** PLACEMENT. The acceptor sits on service 0 and the k-th session on service (k+1) mod n,
      whatever succeeded or failed. */
  lemma SessionPlacement(kind: Kind, size: nat, es: seq<Event>, k: nat)
    requires size > 0 && Legal(kind, Opened(size), es)
    ensures var s := Run(kind, Opened(size), es);
            s.acceptorOn == 0 && (k < |s.placed| ==> s.placed[k] == (k + 1) % size)
  {
    OpenedIsAccounted(size);
    RunKeepsAccounts(kind, Opened(size), es);
  }

  /** The first sessions sit on the services of a window of the rotation. */
  lemma PlacedInRotation(s: Chain, m: nat)
    requires Accounted(s) && m <= |s.placed|
    ensures s.placed[..m] == Draws(s.size, 0, 1 + m)[1..]
  {
    hide Draws;
    QuotientIs(0, s.size, 0);
    forall k | 0 <= k < m
      ensures s.placed[..m][k] == Draws(s.size, 0, 1 + m)[1..][k]
    {
      DrawsGoRound(s.size, 0, 1 + m, 1 + k);
    }
  }

  /** BALANCE. Over any run the numbers of sessions created on two services differ by at most
      one. */
  lemma SessionsAreBalanced(kind: Kind, size: nat, es: seq<Event>, u: nat, v: nat)
    requires u < size && v < size && Legal(kind, Opened(size), es)
    ensures var placed := Run(kind, Opened(size), es).placed;
            && |placed| / size <= Count(placed, v) <= (|placed| + size - 1) / size
            && Count(placed, u) <= Count(placed, v) + 1
  {
    OpenedIsAccounted(size);
    RunKeepsAccounts(kind, Opened(size), es);
    var placed := Run(kind, Opened(size), es).placed;
    var n := |placed|;
    PlacedInRotation(Run(kind, Opened(size), es), n);
    hide Run, Legal, Opened, Draws, Count;
    assert placed[..n] == placed;
    WindowFairness(size, 1, n, v);
    WindowBalance(size, 1, n, u, v);
  }

  /** ACCOUNTING, config server. Every accept, failed or not, is followed by another one: the
      chain never stops, and after t completions t + 1 sessions have been created. */
  lemma {:induction false} ConfigServerNeverStops(s: Chain, es: seq<Event>)
    requires s.waiting.Session?
    ensures Legal(Config, s, es)
    ensures var t := Run(Config, s, es);
            t.waiting.Session? && |t.placed| == |s.placed| + |es|
    decreases |es|
  {
    if es != [] {
      ConfigServerNeverStops(Step(Config, s, es[0]), es[1..]);
    }
  }

  /** ACCOUNTING, capture server. A run is possible exactly if nothing follows its first failed
      accept; after that failure no accept is outstanding, and none ever will be. */
  lemma {:induction false} CaptureServerStopsAtFirstFailure(s: Chain, es: seq<Event>)
    requires s.waiting.Session?
    ensures Legal(Capture, s, es) <==> forall i :: 0 <= i < |es| - 1 ==> es[i] == AcceptOk
    ensures Legal(Capture, s, es) ==>
              var t := Run(Capture, s, es);
              && (t.waiting.Session? <==> AcceptFailed !in es)
              && |t.deleted| == |s.deleted| + (if AcceptFailed in es then 1 else 0)
    decreases |es|
  {
    if es != [] {
      var rest := es[1..];
      assert forall i :: 0 <= i < |rest| ==> rest[i] == es[i + 1];
      if es[0] == AcceptOk {
        CaptureServerStopsAtFirstFailure(Step(Capture, s, AcceptOk), rest);
        assert AcceptFailed in es <==> AcceptFailed in rest;
      } else {
        assert Legal(Capture, Step(Capture, s, AcceptFailed), rest) <==> rest == [];
        assert rest != [] ==> es[0] != AcceptOk && 0 < |es| - 1;
      }
    }
  }

  // ---------------------------------------------------------------- sessions started

  /** The services of the sessions started, in the order they were started. */
  function StartedServices(s: Chain): seq<nat>
    requires forall k :: 0 <= k < |s.started| ==> s.started[k] < |s.placed|
  {
    seq(|s.started|, k requires 0 <= k < |s.started| => s.placed[s.started[k]])
  }

  /** The successful accepts whose session sits on service `v`: accept number i is of session i. */
  ghost function SuccessesOn(size: nat, es: seq<Event>, v: nat): set<nat>
    requires size > 0
  {
    set i: nat | i < |es| && es[i] == AcceptOk && (i + 1) % size == v
  }

  lemma {:induction false} RunSnoc(kind: Kind, s: Chain, es: seq<Event>, e: Event)
    ensures Legal(kind, s, es + [e]) <==> Legal(kind, s, es) && Run(kind, s, es).waiting.Session?
    ensures Legal(kind, s, es + [e]) ==> Run(kind, s, es + [e]) == Step(kind, Run(kind, s, es), e)
    decreases |es|
  {
    if es == [] {
      assert [e][1..] == [];
    } else {
      assert (es + [e])[0] == es[0] && (es + [e])[1..] == es[1..] + [e];
      if s.waiting.Session? {
        RunSnoc(kind, Step(kind, s, es[0]), es[1..], e);
      }
    }
  }

  lemma {:induction false} CountSnoc(s: seq<nat>, x: nat, v: nat)
    ensures Count(s + [x], v) == Count(s, v) + (if x == v then 1 else 0)
    decreases |s|
  {
    if s == [] {
      assert [x][1..] == [];
    } else {
      assert (s + [x])[0] == s[0] && (s + [x])[1..] == s[1..] + [x];
      CountSnoc(s[1..], x, v);
    }
  }

  lemma SuccessesSnoc(size: nat, es: seq<Event>, e: Event, v: nat)
    requires size > 0
    ensures |SuccessesOn(size, es + [e], v)|
         == |SuccessesOn(size, es, v)| + (if e == AcceptOk && (|es| + 1) % size == v then 1 else 0)
  {
    var before, after := SuccessesOn(size, es, v), SuccessesOn(size, es + [e], v);
    assert |es| !in before;
    if e == AcceptOk && (|es| + 1) % size == v {
      assert after == before + {|es|};
    } else {
      assert after == before;
    }
  }

  /** Sessions are accepted in the order of their creation, one by one. */
  lemma {:induction false} WaitingIsNext(kind: Kind, size: nat, es: seq<Event>)
    requires size > 0 && Legal(kind, Opened(size), es)
    ensures var t := Run(kind, Opened(size), es);
            t.waiting.Session? ==> t.waiting.number == |es| && |t.placed| == |es| + 1
    decreases |es|
  {
    if es != [] {
      var before, e := es[..|es| - 1], es[|es| - 1];
      assert es == before + [e];
      RunSnoc(kind, Opened(size), before, e);
      WaitingIsNext(kind, size, before);
    }
  }

  /** WHICH SESSIONS. After any run session k has been started if and only if accept number k
      succeeded, and deleted if and only if it failed. */
  lemma {:induction false} FateIsTheAccept(kind: Kind, size: nat, es: seq<Event>, k: nat)
    requires size > 0 && Legal(kind, Opened(size), es)
    ensures var t := Run(kind, Opened(size), es);
            && (k in t.started <==> k < |es| && es[k] == AcceptOk)
            && (k in t.deleted <==> k < |es| && es[k] == AcceptFailed)
    decreases |es|
  {
    if es != [] {
      var before, e := es[..|es| - 1], es[|es| - 1];
      assert es == before + [e];
      RunSnoc(kind, Opened(size), before, e);
      WaitingIsNext(kind, size, before);
      FateIsTheAccept(kind, size, before, k);
    }
  }

  lemma StartedGrows(size: nat, kind: Kind, s: Chain, e: Event, v: nat)
    requires Accounted(s) && s.waiting.Session? && s.size == size > 0 && s.waiting.number + 1 == |s.placed|
    ensures forall k :: 0 <= k < |s.started| ==> s.started[k] < |s.placed|
    ensures var t := Step(kind, s, e);
            && (forall k :: 0 <= k < |t.started| ==> t.started[k] < |t.placed|)
            && Count(StartedServices(t), v)
               == Count(StartedServices(s), v) + (if e == AcceptOk && |s.placed| % size == v then 1 else 0)
  {
    var t := Step(kind, s, e);
    assert forall k :: 0 <= k < |s.started| ==> s.started[k] in s.started;
    assert forall k :: 0 <= k < |t.placed| && k < |s.placed| ==> t.placed[k] == s.placed[k];
    if e == AcceptOk {
      assert StartedServices(t) == StartedServices(s) + [s.placed[s.waiting.number]];
      CountSnoc(StartedServices(s), s.placed[s.waiting.number], v);
    } else {
      assert StartedServices(t) == StartedServices(s);
    }
  }

  /** SESSIONS STARTED. On either server, as many sessions have been started on service v as
      accepts number i with (i+1) mod n = v have succeeded. */
  lemma {:induction false} StartedAreTheSuccesses(kind: Kind, size: nat, es: seq<Event>, v: nat)
    requires size > 0 && Legal(kind, Opened(size), es)
    ensures var t := Run(kind, Opened(size), es);
            && (forall k :: 0 <= k < |t.started| ==> t.started[k] < |t.placed|)
            && Count(StartedServices(t), v) == |SuccessesOn(size, es, v)|
    decreases |es|
  {
    if es == [] {
      assert SuccessesOn(size, es, v) == {};
    } else {
      var before, e := es[..|es| - 1], es[|es| - 1];
      assert es == before + [e];
      RunSnoc(kind, Opened(size), before, e);
      StartedAreTheSuccesses(kind, size, before, v);
      WaitingIsNext(kind, size, before);
      OpenedIsAccounted(size);
      RunKeepsAccounts(kind, Opened(size), before);
      StartedGrows(size, kind, Run(kind, Opened(size), before), e, v);
      SuccessesSnoc(size, before, e, v);
    }
  }

  /** No two services differ by more than one in the sessions started. */
  ghost predicate StartedInBalance(s: Chain)
    requires forall k :: 0 <= k < |s.started| ==> s.started[k] < |s.placed|
  {
    forall u, v :: 0 <= u < s.size && 0 <= v < s.size ==>
      Count(StartedServices(s), u) <= Count(StartedServices(s), v) + 1
  }

  /** BALANCE OF SESSIONS STARTED, config server: exactly when the successful accepts, taken
      modulo the number of services, are in balance. */
  lemma StartedInBalanceExactlyWhen(size: nat, es: seq<Event>)
    requires size > 0
    ensures Legal(Config, Opened(size), es)
    ensures forall k :: 0 <= k < |Run(Config, Opened(size), es).started| ==>
              Run(Config, Opened(size), es).started[k] < |Run(Config, Opened(size), es).placed|
    ensures StartedInBalance(Run(Config, Opened(size), es)) <==>
            forall u, v :: 0 <= u < size && 0 <= v < size ==>
              |SuccessesOn(size, es, u)| <= |SuccessesOn(size, es, v)| + 1
  {
    ConfigServerNeverStops(Opened(size), es);
    OpenedIsAccounted(size);
    RunKeepsAccounts(Config, Opened(size), es);
    StartedAreTheSuccesses(Config, size, es, 0);
    forall v: nat
      ensures Count(StartedServices(Run(Config, Opened(size), es)), v) == |SuccessesOn(size, es, v)|
    {
      StartedAreTheSuccesses(Config, size, es, v);
    }
  }

  /** The sessions a capture server starts are the first ones. */
  lemma {:induction false} CaptureStartsInOrder(size: nat, es: seq<Event>)
    requires size > 0 && Legal(Capture, Opened(size), es)
    ensures var t := Run(Capture, Opened(size), es);
            && |t.started| <= |t.placed|
            && (forall k :: 0 <= k < |t.started| ==> t.started[k] == k)
            && (t.waiting.Session? ==> |t.started| == |es|)
    decreases |es|
  {
    if es != [] {
      var before, e := es[..|es| - 1], es[|es| - 1];
      assert es == before + [e];
      RunSnoc(Capture, Opened(size), before, e);
      CaptureStartsInOrder(size, before);
      WaitingIsNext(Capture, size, before);
    }
  }

  /** BALANCE OF SESSIONS STARTED, capture server: always, since the first failure is the end. */
  lemma CaptureServerStartsInBalance(size: nat, es: seq<Event>)
    requires size > 0 && Legal(Capture, Opened(size), es)
    ensures var t := Run(Capture, Opened(size), es);
            && (forall k :: 0 <= k < |t.started| ==> t.started[k] < |t.placed|)
            && StartedInBalance(t)
  {
    var t := Run(Capture, Opened(size), es);
    var m := |t.started|;
    OpenedIsAccounted(size);
    RunKeepsAccounts(Capture, Opened(size), es);
    CaptureStartsInOrder(size, es);
    PlacedInRotation(t, m);
    assert StartedServices(t) == t.placed[..m];
    hide Run, Legal, Opened, Draws, Count;
    forall u, v | 0 <= u < size && 0 <= v < size
      ensures Count(StartedServices(t), u) <= Count(StartedServices(t), v) + 1
    {
      WindowBalance(size, 1, m, u, v);
    }
  }

  function Alternating(rounds: nat): seq<Event> {
    if rounds == 0 then [] else [AcceptOk, AcceptFailed] + Alternating(rounds - 1)
  }

  /** The balance is one of sessions CREATED. Failed accepts use up turns, so the sessions that
      are started need not be balanced: on a config server with two services, when every other
      accept fails, all started sessions sit on service 1. */
  lemma {:induction false} StartedSessionsMayPileUp(s: Chain, rounds: nat)
    requires s.size == 2 && s.next == 0 && s.waiting.Session?
    requires s.waiting.number == |s.placed| - 1 && s.placed[s.waiting.number] == 1
    ensures Legal(Config, s, Alternating(rounds))
    ensures var t := Run(Config, s, Alternating(rounds));
            && |t.started| == |s.started| + rounds
            && s.placed <= t.placed
            && s.started <= t.started
            && (forall i :: |s.started| <= i < |t.started| ==>
                  t.started[i] < |t.placed| && t.placed[t.started[i]] == 1)
    decreases rounds
  {
    if rounds > 0 {
      var es := Alternating(rounds);
      var s1 := Step(Config, s, AcceptOk);
      var s2 := Step(Config, s1, AcceptFailed);
      assert es[1..][1..] == Alternating(rounds - 1);
      StartedSessionsMayPileUp(s2, rounds - 1);
      assert Legal(Config, s1, es[1..]);
      assert Run(Config, s1, es[1..]) == Run(Config, s2, es[1..][1..]);
      var t, w := Run(Config, s, es), s.waiting.number;
      assert t == Run(Config, s2, Alternating(rounds - 1));
      assert s2.started == s.started + [w] && t.started[|s.started|] == w;
    }
  }

  lemma {:induction false} CountOfSame(s: seq<nat>, x: nat, v: nat)
    requires forall k :: 0 <= k < |s| ==> s[k] == x
    ensures Count(s, v) == if v == x then |s| else 0
    decreases |s|
  {
    if s != [] {
      CountOfSame(s[1..], x, v);
    }
  }

  /** The same from the start: a config server with two services then has every session it has
      started on service 1 and none on service 0. */
  lemma PileUpFromTheStart(rounds: nat)
    ensures Legal(Config, Opened(2), Alternating(rounds))
    ensures var t := Run(Config, Opened(2), Alternating(rounds));
            && (forall k :: 0 <= k < |t.started| ==> t.started[k] < |t.placed|)
            && Count(StartedServices(t), 1) == rounds && Count(StartedServices(t), 0) == 0
  {
    StartedSessionsMayPileUp(Opened(2), rounds);
    var services := StartedServices(Run(Config, Opened(2), Alternating(rounds)));
    CountOfSame(services, 1, 0);
    CountOfSame(services, 1, 1);
  }
}
