/**
 Whole runs of a `Tcp_server`: accepts, broadcasts and the completions of every session's writes,
 in any order. Sessions are numbered in the order of their creation; the last one is always the
 session the outstanding accept will fill.
 */
module ServerRuns {
  import opened Messages
  import opened Sequences
  import B = Broadcast
  import WQ = WriteQueue

  datatype Event = Accepted(ok: bool) | Broadcast(msg: Message) | Completed(session: nat, ok: bool)

  datatype State = State(links: seq<WQ.Link<Message>>, list: seq<nat>) {
    predicate Listed() {
      forall i :: 0 <= i < |list| ==> list[i] < |links|
    }

    /** The list as a broadcast sees it. */
    function Entries(): (es: seq<B.Entry<nat>>)
      requires Listed()
      ensures B.Whos(es) == list
    {
      seq(|list|, i requires 0 <= i < |list| => B.Entry(list[i], links[list[i]].closed))
    }

    /** Session `k`, or a fresh one if it has not been created yet. */
    function LinkOf(k: nat): WQ.Link<Message> {
      if k < |links| then links[k] else WQ.Fresh()
    }
  }

  const INITIAL := State([WQ.Fresh()], [])

  predicate CanHappen(s: State, e: Event) {
    match e
    case Accepted(_) => true
    case Broadcast(m) => s.Listed() && B.WalkDefined(s.Entries())
    case Completed(k, _) => k < |s.links| && s.links[k].pending > 0
  }

  /** The step session `k` takes with the server: at most one. */
  function Share(s: State, e: Event, k: nat): seq<WQ.Event<Message>>
    requires CanHappen(s, e)
  {
    match e
    case Accepted(_) => []
    case Broadcast(m) => if k in B.Recipients(s.Entries()) then [WQ.Post(m)] else []
    case Completed(j, ok) => if j == k then [if ok then WQ.WriteOk else WQ.WriteFailed] else []
  }

  function Step(s: State, e: Event): (t: State)
    requires CanHappen(s, e) && s.links != []
    ensures t.links != []
  {
    match e
    case Accepted(ok) =>
      State(s.links + [WQ.Fresh()], if ok then s.list + [|s.links| - 1] else s.list)
    case Broadcast(m) =>
      var served := B.Recipients(s.Entries());
      State(seq(|s.links|, k requires 0 <= k < |s.links| =>
                  if k in served then WQ.Step(s.links[k], WQ.Post(m)) else s.links[k]),
            B.Whos(B.Survivors(s.Entries())))
    case Completed(k, ok) =>
      s.(links := s.links[k := WQ.Step(s.links[k], if ok then WQ.WriteOk else WQ.WriteFailed)])
  }

  predicate Legal(s: State, es: seq<Event>)
    requires s.links != []
    decreases |es|
  {
    es == [] || (CanHappen(s, es[0]) && Legal(Step(s, es[0]), es[1..]))
  }

  function Run(s: State, es: seq<Event>): (t: State)
    requires s.links != [] && Legal(s, es)
    ensures t.links != []
    decreases |es|
  {
    if es == [] then s else Run(Step(s, es[0]), es[1..])
  }

  /** Everything session `k` does during a run. */
  function History(s: State, es: seq<Event>, k: nat): seq<WQ.Event<Message>>
    requires s.links != [] && Legal(s, es)
    decreases |es|
  {
    if es == [] then [] else Share(s, es[0], k) + History(Step(s, es[0]), es[1..], k)
  }

  // ---------------------------------------------------------------- what every run keeps

  /** The list names created sessions, none twice and never the one still being accepted, which
      is untouched; and every session's deque and socket agree. */
  ghost predicate Valid(s: State) {
    && s.links != [] && s.links[|s.links| - 1] == WQ.Fresh()
    && Distinct(s.list)
    && (forall i :: 0 <= i < |s.list| ==> s.list[i] < |s.links| - 1)
    && (forall k :: 0 <= k < |s.links| ==> WQ.Agrees(s.links[k]))
  }

  lemma ValidIsListed(s: State)
    requires Valid(s)
    ensures s.links != [] && s.Listed()
  {
  }

  lemma {:induction false} RecipientsAreListed<T>(es: seq<B.Entry<T>>)
    requires B.WalkDefined(es)
    ensures forall t :: t in B.Recipients(es) ==> t in B.Whos(es)
    decreases |es|
  {
    if es != [] {
      var n := if es[0].closed then 2 else 1;
      RecipientsAreListed(es[n..]);
      assert B.Whos(es) == B.Whos(es[..n]) + B.Whos(es[n..]);
      assert B.Whos(es)[0] == es[0].who;
    }
  }

  lemma BroadcastKeepsValid(s: State, m: Message)
    requires Valid(s) && CanHappen(s, Broadcast(m))
    ensures Valid(Step(s, Broadcast(m)))
  {
    var es := s.Entries();
    B.SurvivingSessions(s.list, es);
    RecipientsAreListed(es);
    hide B.WalkDefined, B.Survivors, B.Recipients, B.Whos;
    var t := Step(s, Broadcast(m));
    assert |s.links| - 1 !in s.list;
    forall i | 0 <= i < |t.list|
      ensures t.list[i] < |t.links| - 1
    {
      assert t.list[i] in s.list;
    }
  }

  /** A broadcast posts to its recipients and to no other session. */
  lemma BroadcastPosts(s: State, m: Message)
    requires Valid(s) && CanHappen(s, Broadcast(m))
    ensures var es, t := s.Entries(), Step(s, Broadcast(m));
            && |t.links| == |s.links| && t.list == B.Whos(B.Survivors(es))
            && (forall k :: k in B.Recipients(es) ==> k in s.list)
            && forall k :: 0 <= k < |s.links| ==>
                 t.links[k] == if k in B.Recipients(es) then WQ.Step(s.links[k], WQ.Post(m)) else s.links[k]
  {
    RecipientsAreListed(s.Entries());
  }

  lemma StepKeepsValid(s: State, e: Event)
    requires Valid(s) && CanHappen(s, e)
    ensures Valid(Step(s, e))
  {
    match e
    case Broadcast(m) => BroadcastKeepsValid(s, m);
    case Accepted(_) =>
    case Completed(k, _) => assert WQ.Agrees(s.links[k]);
  }

  lemma {:induction false} RunKeepsValid(s: State, es: seq<Event>)
    requires Valid(s) && Legal(s, es)
    ensures Valid(Run(s, es))
    decreases |es|
  {
    hide Step;
    if es != [] {
      StepKeepsValid(s, es[0]);
      RunKeepsValid(Step(s, es[0]), es[1..]);
    }
  }

  /** SAFETY OF THE SERVER. In every run, however accepts, broadcasts and completions interleave,
      every session's deque agrees with its socket, and the list never names a session twice nor
      the one still being accepted. */
  lemma EveryRunIsValid(es: seq<Event>)
    requires Legal(INITIAL, es)
    ensures Valid(Run(INITIAL, es))
  {
    RunKeepsValid(INITIAL, es);
  }

  // ---------------------------------------------------------------- each session on its own

  lemma StepIsShared(s: State, e: Event, k: nat)
    requires Valid(s) && CanHappen(s, e)
    ensures WQ.Legal(s.LinkOf(k), Share(s, e, k))
    ensures Step(s, e).LinkOf(k) == WQ.Run(s.LinkOf(k), Share(s, e, k))
  {
    if e.Broadcast? {
      RecipientsAreListed(s.Entries());
      hide B.WalkDefined, B.Survivors, B.Recipients;
      if k in B.Recipients(s.Entries()) {
        assert k in s.list;
      }
    }
  }

  /** COMPOSITION. In every run of the server each session, whenever it was created, goes through
      a run of its own, made of exactly its share of the server's steps. All laws of the write
      queue therefore hold of every session of a server. */
  lemma {:induction false} EverySessionRuns(s: State, es: seq<Event>, k: nat)
    requires Valid(s) && Legal(s, es)
    ensures WQ.Legal(s.LinkOf(k), History(s, es, k))
    ensures Run(s, es).LinkOf(k) == WQ.Run(s.LinkOf(k), History(s, es, k))
    decreases |es|
  {
    hide Step, Share;
    if es != [] {
      var t := Step(s, es[0]);
      StepKeepsValid(s, es[0]);
      StepIsShared(s, es[0], k);
      EverySessionRuns(t, es[1..], k);
      WQ.RunConcat(s.LinkOf(k), Share(s, es[0], k), History(t, es[1..], k));
    }
  }

  /** A session is posted to only while it is in the list and open. */
  lemma {:induction false} RecipientsAreOpen<T>(es: seq<B.Entry<T>>)
    requires B.WalkDefined(es)
    ensures forall t :: t in B.Recipients(es) ==> exists i :: 0 <= i < |es| && es[i].who == t && !es[i].closed
    decreases |es|
  {
    if es != [] {
      var n := if es[0].closed then 2 else 1;
      var rest := es[n..];
      RecipientsAreOpen(rest);
      forall t | t in B.Recipients(es)
        ensures exists i :: 0 <= i < |es| && es[i].who == t && !es[i].closed
      {
        if t in B.Recipients(rest) {
          var i :| 0 <= i < |rest| && rest[i].who == t && !rest[i].closed;
          assert es[n + i] == rest[i];
        } else {
          assert es[0].who == t && !es[0].closed;
        }
      }
    }
  }

  /** FAILED FOR GOOD. A session one of whose writes has failed takes no further step in any run:
      no broadcast reaches it, so its deque never grows again and nothing more is sent on it. */
  lemma {:induction false} FailedSessionsRest(s: State, es: seq<Event>, k: nat)
    requires Valid(s) && Legal(s, es) && k < |s.links| && s.links[k].closed
    ensures History(s, es, k) == []
    ensures k < |Run(s, es).links| && Run(s, es).links[k] == s.links[k]
    decreases |es|
  {
    if es != [] {
      StepKeepsValid(s, es[0]);
      if es[0].Broadcast? {
        RecipientsAreOpen(s.Entries());
      }
      assert WQ.Agrees(s.links[k]);
      assert Share(s, es[0], k) == [];
      StepIsShared(s, es[0], k);
      hide Step, Share;
      FailedSessionsRest(Step(s, es[0]), es[1..], k);
    }
  }

  lemma {:induction false} FailureIsInHistory(s: State, es: seq<Event>, k: nat)
    requires s.links != [] && Legal(s, es)
    ensures WQ.WriteFailed in History(s, es, k) <==> Completed(k, false) in es
    decreases |es|
  {
    if es != [] {
      FailureIsInHistory(Step(s, es[0]), es[1..], k);
      assert WQ.WriteFailed in Share(s, es[0], k) <==> es[0] == Completed(k, false);
      hide Step, Share;
    }
  }

  /** CLOSED EXACTLY WHEN. After any run a session is closed if and only if one of its own writes
      has failed. */
  lemma ClosedIffWriteFailed(es: seq<Event>, k: nat)
    requires Legal(INITIAL, es) && k < |Run(INITIAL, es).links|
    ensures Run(INITIAL, es).links[k].closed <==> Completed(k, false) in es
  {
    EverySessionRuns(INITIAL, es, k);
    FailureIsInHistory(INITIAL, es, k);
    hide Step, Share;
    WQ.ClosedIffFailed(History(INITIAL, es, k));
  }

  lemma {:induction false} RunSnoc(s: State, es: seq<Event>, e: Event)
    requires s.links != []
    ensures Legal(s, es + [e]) <==> Legal(s, es) && CanHappen(Run(s, es), e)
    ensures Legal(s, es + [e]) ==> Run(s, es + [e]) == Step(Run(s, es), e)
    decreases |es|
  {
    hide Step, CanHappen;
    if es == [] {
      assert [e][1..] == [];
    } else {
      assert (es + [e])[0] == es[0] && (es + [e])[1..] == es[1..] + [e];
      if CanHappen(s, es[0]) {
        RunSnoc(Step(s, es[0]), es[1..], e);
      }
    }
  }

  lemma {:induction false} RunConcat(s: State, a: seq<Event>, b: seq<Event>)
    requires s.links != []
    ensures Legal(s, a + b) <==> Legal(s, a) && Legal(Run(s, a), b)
    ensures Legal(s, a + b) ==> Run(s, a + b) == Run(Run(s, a), b)
    decreases |a|
  {
    hide Step, CanHappen;
    if a == [] {
      assert a + b == b;
    } else {
      assert (a + b)[0] == a[0] && (a + b)[1..] == a[1..] + b;
      if CanHappen(s, a[0]) {
        RunConcat(Step(s, a[0]), a[1..], b);
      }
    }
  }

  /** FAILED FOR GOOD, from the event. When event `i` of a run is the failure of a write of session
      k, the failure closes that session with nothing in flight; and in the rest of the run it is
      neither posted to nor completed, and does not change. */
  lemma FailureIsFinal(es: seq<Event>, i: nat, k: nat)
    requires Legal(INITIAL, es) && i < |es| && es[i] == Completed(k, false)
    ensures Legal(INITIAL, es[..i]) && k < |Run(INITIAL, es[..i]).links|
    ensures Legal(INITIAL, es[..i + 1]) && Legal(Run(INITIAL, es[..i + 1]), es[i + 1..])
    ensures var s, t := Run(INITIAL, es[..i]), Run(INITIAL, es);
            && k < |t.links| && t.links[k] == s.links[k].(closed := true, pending := 0)
            && History(Run(INITIAL, es[..i + 1]), es[i + 1..], k) == []
  {
    var before, after := es[..i], es[i + 1..];
    assert es[..i + 1] == before + [es[i]];
    assert es[..i + 1] + after == es;
    RunConcat(INITIAL, es[..i + 1], after);
    RunSnoc(INITIAL, before, es[i]);
    RunKeepsValid(INITIAL, before);
    RunKeepsValid(INITIAL, es[..i + 1]);
    var s, u := Run(INITIAL, before), Run(INITIAL, es[..i + 1]);
    assert WQ.Agrees(s.links[k]);
    WQ.FailureCloses(s.links[k]);
    assert u.links[k] == WQ.Step(s.links[k], WQ.WriteFailed);
    hide Step, CanHappen, Valid;
    FailedSessionsRest(u, after, k);
  }

  /** An accept can succeed or fail at any time. It creates the session of the next accept, and on
      success the one that was waiting joins the list at its end. */
  lemma AcceptsAreFree(s: State, ok: bool)
    requires Valid(s)
    ensures CanHappen(s, Accepted(ok))
    ensures var t := Step(s, Accepted(ok));
            && t.links[..|s.links|] == s.links && |t.links| == |s.links| + 1
            && t.list[..|s.list|] == s.list && t.list[|s.list|..] == if ok then [|s.links| - 1] else []
  {
  }

  /** Whatever write is in flight can complete or fail at any time, and that touches no other
      session and not the list. */
  lemma CompletionsAreFree(s: State, k: nat, ok: bool)
    requires Valid(s) && k < |s.links| && s.links[k].pending > 0
    ensures CanHappen(s, Completed(k, ok))
    ensures var t := Step(s, Completed(k, ok));
            && t.list == s.list && |t.links| == |s.links|
            && (forall j :: 0 <= j < |s.links| && j != k ==> t.links[j] == s.links[j])
            && if ok then t.links[k].queue == s.links[k].queue[1..]
               else t.links[k] == s.links[k].(closed := true, pending := 0)
  {
    assert WQ.Agrees(s.links[k]);
  }
}
