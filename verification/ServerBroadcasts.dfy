/**
 The broadcasts of a server: which states allow one, what states a server does get into, and what
 broadcasts in a row leave and whom they reach.
 */
module ServerBroadcasts {
  import opened Messages
  import opened Sequences
  import opened ServerRuns
  import B = Broadcast
  import RB = RepeatedBroadcasts
  import WQ = WriteQueue

  /** A broadcast right after a successful accept never runs past the end of the list. */
  lemma AcceptMakesBroadcastSafe(s: State, m: Message)
    requires Valid(s)
    ensures CanHappen(Step(s, Accepted(true)), Broadcast(m))
  {
    var t := Step(s, Accepted(true));
    var es := t.Entries();
    assert !es[|es| - 1].closed;
    OpenLastGap(es);
    B.WalkDefinedIffEvenTail(es);
  }

  lemma {:induction false} OpenLastGap<T>(es: seq<B.Entry<T>>)
    requires es != [] && !es[|es| - 1].closed
    ensures |B.Gaps(es)| > 1 && B.Last(B.Gaps(es)) == 0
    decreases |es|
  {
    hide B.Gaps, B.Opens;
    var e, rest := es[0], es[1..];
    assert es == [e] + rest;
    B.GapsOfCons(e, rest);
    if rest == [] {
      B.OfEmptyList<T>();
    } else {
      OpenLastGap(rest);
    }
  }

  // ---------------------------------------------------------------- states a broadcast meets

  /** In any state a broadcast stays inside the list if and only if the closed sessions at its
      end are even in number. */
  lemma BroadcastSafeIffEvenTail(s: State, m: Message)
    requires Valid(s)
    ensures CanHappen(s, Broadcast(m)) <==> B.Last(B.Gaps(s.Entries())) % 2 == 0
  {
    B.WalkDefinedIffEvenTail(s.Entries());
  }

  lemma RunOne(s: State, e: Event)
    requires s.links != [] && CanHappen(s, e)
    ensures Legal(s, [e]) && Run(s, [e]) == Step(s, e)
  {
    hide Step, CanHappen;
    assert [e][1..] == [];
  }

  /** One session has connected and has been sent a message. */
  function FirstPosted(m: Message): State {
    State([WQ.Step(WQ.Fresh(), WQ.Post(m)), WQ.Fresh()], [0])
  }

  lemma PostToFirst(m: Message)
    ensures var s := Step(INITIAL, Accepted(true));
            CanHappen(s, Broadcast(m)) && Step(s, Broadcast(m)) == FirstPosted(m)
  {
    hide B.WalkDefined, B.Recipients, B.Survivors;
    var s := Step(INITIAL, Accepted(true));
    var e: B.Entry<nat> := B.Entry(0, false);
    assert s.Entries() == [e] && [e] + [] == [e];
    B.OfEmptyList<nat>();
    B.WalkOfCons(e, []);
    assert B.Recipients([e]) == [0] && B.Survivors([e]) == [e];
    var t := Step(s, Broadcast(m));
    assert t.links == FirstPosted(m).links && t.list == [0];
  }

  lemma FirstBroadcast(m: Message)
    ensures var es := [Accepted(true)] + [Broadcast(m)];
            Legal(INITIAL, es) && Run(INITIAL, es) == FirstPosted(m)
  {
    PostToFirst(m);
    RunOne(INITIAL, Accepted(true));
    RunSnoc(INITIAL, [Accepted(true)], Broadcast(m));
  }

  /** A server gets into a state in which no broadcast is defined: one session connects, is sent
      a message, and the write fails. */
  lemma BroadcastMayBecomeUndefined(m: Message)
    ensures var es := [Accepted(true)] + [Broadcast(m)] + [Completed(0, false)];
            && Legal(INITIAL, es)
            && forall n: Message :: !CanHappen(Run(INITIAL, es), Broadcast(n))
  {
    FirstBroadcast(m);
    RunSnoc(INITIAL, [Accepted(true)] + [Broadcast(m)], Completed(0, false));
    hide Legal, Run;
    assert Step(FirstPosted(m), Completed(0, false)).Entries() == [B.Entry(0, true)];
  }

  /** The first session's write has failed, and the second one is connected and open. */
  lemma ClosedThenOpen(m: Message)
    ensures var t := Step(Step(FirstPosted(m), Accepted(true)), Completed(0, false));
            && t.list == [0, 1] && !t.links[1].closed
            && forall n: Message :: CanHappen(t, Broadcast(n)) && Share(t, Broadcast(n), 1) == []
  {
    hide B.WalkDefined, B.Recipients, B.Survivors;
    var t := Step(Step(FirstPosted(m), Accepted(true)), Completed(0, false));
    var e: B.Entry<nat>, f: B.Entry<nat> := B.Entry(0, true), B.Entry(1, false);
    assert t.Entries() == [e, f] && [e, f] + [] == [e, f];
    B.OfEmptyList<nat>();
    B.WalkOfPair(e, f, []);
  }

  /** A server gets into a state in which a broadcast is defined and passes over an open session:
      a second session connects, and the write on the first fails. */
  lemma BroadcastMayMissAnOpenSession(m: Message)
    ensures var es := [Accepted(true)] + [Broadcast(m)] + [Accepted(true)] + [Completed(0, false)];
            && Legal(INITIAL, es)
            && var t := Run(INITIAL, es);
               && t.list == [0, 1] && 1 < |t.links| && !t.links[1].closed
               && forall n: Message :: CanHappen(t, Broadcast(n)) && Share(t, Broadcast(n), 1) == []
  {
    var two := [Accepted(true)] + [Broadcast(m)];
    FirstBroadcast(m);
    RunSnoc(INITIAL, two, Accepted(true));
    RunSnoc(INITIAL, two + [Accepted(true)], Completed(0, false));
    ClosedThenOpen(m);
    hide Legal, Run, Share, Step;
  }

  // ---------------------------------------------------------------- broadcasts in a row

  function Broadcasts(ms: seq<Message>): seq<Event> {
    if ms == [] then [] else [Broadcast(ms[0])] + Broadcasts(ms[1..])
  }

  /** A broadcast changes the list, but none of the flags. */
  lemma BroadcastLeavesSurvivors(s: State, m: Message)
    requires Valid(s) && CanHappen(s, Broadcast(m))
    ensures Step(s, Broadcast(m)).Listed()
    ensures Step(s, Broadcast(m)).Entries() == B.Survivors(s.Entries())
  {
    var es, t := s.Entries(), Step(s, Broadcast(m));
    StepKeepsValid(s, Broadcast(m));
    B.SurvivorsStayDistinct(es);
    hide B.WalkDefined, B.Survivors, B.Recipients;
    var survivors := B.Survivors(es);
    forall i | 0 <= i < |survivors|
      ensures t.Entries()[i] == survivors[i]
    {
      assert survivors[i] in es;
    }
  }

  /** Broadcasts in a row are the repeated walks over the server's list: they are possible
      exactly if those walks are defined, and leave what those walks leave. */
  lemma {:induction false} BroadcastsRepeatTheWalk(s: State, ms: seq<Message>)
    requires Valid(s)
    ensures Legal(s, Broadcasts(ms)) <==> RB.DefinedFor(s.Entries(), |ms|)
    ensures Legal(s, Broadcasts(ms)) ==>
              && Run(s, Broadcasts(ms)).Listed()
              && Run(s, Broadcasts(ms)).Entries() == RB.After(s.Entries(), |ms|)
    decreases |ms|
  {
    hide B.WalkDefined, B.Survivors, Valid, Step;
    ValidIsListed(s);
    if ms != [] {
      var e, rest := Broadcast(ms[0]), Broadcasts(ms[1..]);
      assert Broadcasts(ms) == [e] + rest && ([e] + rest)[1..] == rest;
      if CanHappen(s, e) {
        StepKeepsValid(s, e);
        BroadcastLeavesSurvivors(s, ms[0]);
        BroadcastsRepeatTheWalk(Step(s, e), ms[1..]);
      }
    }
  }

  lemma {:induction false} OpensAreListed<T>(es: seq<B.Entry<T>>, t: T)
    requires t in B.Opens(es)
    ensures t in B.Whos(es)
    decreases |es|
  {
    if t == es[0].who {
      assert B.Whos(es)[0] == t;
    } else {
      OpensAreListed(es[1..], t);
      var i :| 0 <= i < |es[1..]| && B.Whos(es[1..])[i] == t;
      assert B.Whos(es)[i + 1] == t;
    }
  }

  lemma {:induction false} OpensAreDistinct<T>(es: seq<B.Entry<T>>)
    requires Distinct(B.Whos(es))
    ensures Distinct(B.Opens(es))
    decreases |es|
  {
    if es != [] {
      var rest := es[1..];
      var opens := B.Opens(rest);
      assert B.Whos(rest) == B.Whos(es)[1..];
      OpensAreDistinct(rest);
      forall j | 0 <= j < |opens|
        ensures opens[j] != es[0].who
      {
        OpensAreListed(rest, opens[j]);
        var i :| 0 <= i < |rest| && B.Whos(rest)[i] == opens[j];
        assert B.Whos(es)[i + 1] == opens[j] && B.Whos(es)[0] == es[0].who;
      }
      assert B.Opens(es) == (if es[0].closed then [] else [es[0].who]) + opens;
    }
  }

  /** What an open session hears of broadcasts in a row, and what it misses, are all of them. */
  lemma {:induction false} HeardPlusMissed(s: State, ms: seq<Message>, i: nat)
    requires Valid(s) && Legal(s, Broadcasts(ms)) && RB.DefinedFor(s.Entries(), |ms|)
    requires i < |B.Opens(s.Entries())|
    ensures var k := B.Opens(s.Entries())[i];
            |History(s, Broadcasts(ms), k)| + RB.Missed(s.Entries(), i, |ms|) == |ms|
    decreases |ms|
  {
    hide B.WalkDefined, B.Survivors, B.Recipients, B.Opens;
    if ms != [] {
      var e, rest := Broadcast(ms[0]), Broadcasts(ms[1..]);
      var es := s.Entries();
      assert Broadcasts(ms) == [e] + rest && ([e] + rest)[1..] == rest;
      StepKeepsValid(s, e);
      BroadcastLeavesSurvivors(s, ms[0]);
      B.BroadcastHalvesGaps(es);
      hide Step;
      HeardPlusMissed(Step(s, e), ms[1..], i);
    }
  }

  /** HEARD. Of enough broadcasts in a row to work off the closed sessions before it, an open
      session is posted all but as many as their number has binary ones. */
  lemma HeardAllButBinaryOnes(s: State, ms: seq<Message>, i: nat)
    requires Valid(s) && Legal(s, Broadcasts(ms))
    requires i < |B.Opens(s.Entries())| && B.Gaps(s.Entries())[i] < RB.Pow2(|ms|)
    ensures var k := B.Opens(s.Entries())[i];
            |History(s, Broadcasts(ms), k)| == |ms| - RB.BinaryOnes(B.Gaps(s.Entries())[i])
  {
    BroadcastsRepeatTheWalk(s, ms);
    OpensAreDistinct(s.Entries());
    HeardPlusMissed(s, ms, i);
    RB.MissedIsBinaryOnes(s.Entries(), i, |ms|);
  }
}
