/**
 What the forest semantics means for the sender: which message opens and closes a busy period,
 which messages are repeated and which are lost, and when the session behaves like a FIFO.
 */
module TransmissionLaws {
  import opened Sequences
  import opened WriteQueue
  import opened BusyPeriods

  /** The deque after the first `k` events of a run. */
  function QueueAfter<M>(s: Link<M>, es: seq<Event<M>>, k: nat): seq<M>
    requires Legal(s, es) && k <= |es|
    decreases k
  {
    if k == 0 then s.queue else QueueAfter(Step(s, es[0]), es[1..], k - 1)
  }

  /** The messages transmitted by a run. */
  function Sent<M>(s: Link<M>, es: seq<Event<M>>): seq<M>
    requires Legal(s, es)
    decreases |es|
  {
    if es == [] then []
    else
      var t := Step(s, es[0]);
      t.started[|s.started|..] + Sent(t, es[1..])
  }

  lemma {:induction false} SentIsTheGrowthOfStarted<M>(s: Link<M>, es: seq<Event<M>>)
    requires Legal(s, es)
    ensures Run(s, es).started == s.started + Sent(s, es)
    decreases |es|
  {
    if es != [] {
      var t := Step(s, es[0]);
      SentIsTheGrowthOfStarted(t, es[1..]);
      assert t.started == s.started + t.started[|s.started|..];
    }
  }

  lemma IdleForestSends<M>(s: Link<M>, f: Forest<M>)
    requires Idle(s)
    ensures Legal(s, Events(f)) && Idle(Run(s, Events(f)))
    ensures Sent(s, Events(f)) == SentFromIdle(f)
  {
    RunOnIdle(s, f);
    SentIsTheGrowthOfStarted(s, Events(f));
    var after := Run(s, Events(f)).started;
    assert after[|s.started|..] == Sent(s, Events(f)) && after[|s.started|..] == SentFromIdle(f);
  }

  lemma {:induction false} SentUnderShape<M>(p: M, f: Forest<M>)
    ensures |SentUnder(p, f)| == |Posted(f)|
    ensures f.Tree? ==> SentUnder(p, f)[|Posted(f)| - 1] == p
    decreases f
  {
    if f.Tree? {
      SentUnderShape(f.msg, f.kids);
      SentUnderShape(p, f.rest);
    }
  }

  lemma {:induction false} SentFromIdleLength<M>(f: Forest<M>)
    ensures |SentFromIdle(f)| == |Posted(f)|
    decreases f
  {
    if f.Tree? {
      SentUnderShape(f.msg, f.kids);
      SentFromIdleLength(f.rest);
    }
  }

  lemma AsManySentAsPosted<M>(s: Link<M>, es: seq<Event<M>>)
    requires Idle(s) && AllOk(es) && Legal(s, es) && Idle(Run(s, es))
    ensures |Sent(s, es)| == |PostsOf(es)|
  {
    EveryIdleRunIsAForest(s, es);
    var f: Forest<M> :| es == Events(f);
    PostsOfEvents(f);
    IdleForestSends(s, f);
    SentFromIdleLength(f);
  }

  // ---------------------------------------------------------------- busy periods

  /** A busy period: from idle, back to idle, never idle in between. */
  predicate BusyPeriod<M>(s: Link<M>, es: seq<Event<M>>) {
    && Idle(s) && AllOk(es) && es != []
    && Legal(s, es) && Idle(Run(s, es))
    && forall k :: 0 < k < |es| ==> QueueAfter(s, es, k) != []
  }

  lemma {:induction false} QueueAfterIsRun<M>(s: Link<M>, a: seq<Event<M>>, b: seq<Event<M>>)
    requires Legal(s, a + b)
    ensures Legal(s, a) && QueueAfter(s, a + b, |a|) == Run(s, a).queue
    decreases |a|
  {
    if a == [] {
    } else {
      assert (a + b)[0] == a[0] && (a + b)[1..] == a[1..] + b;
      QueueAfterIsRun(Step(s, a[0]), a[1..], b);
    }
  }

  /** A busy period is a single tree, so its sends are the opener and the parents below it. */
  lemma BusyPeriodIsATree<M>(s: Link<M>, es: seq<Event<M>>) returns (f: Forest<M>)
    requires BusyPeriod(s, es)
    ensures f.Tree? && f.rest == Empty && es == Events(f)
  {
    EveryIdleRunIsAForest(s, es);
    f :| es == Events(f);
    if f.rest != Empty {
      var first := Tree(f.msg, f.kids, Empty);
      var a, b := Events(first), Events(f.rest);
      assert Events<M>(Empty) == [];
      assert a == [Post(f.msg)] + Events(f.kids) + [WriteOk] + [];
      assert a == [Post(f.msg)] + Events(f.kids) + [WriteOk];
      assert es == a + b && 0 < |a| < |es|;
      QueueAfterIsRun(s, a, b);
      RunOnIdle(s, first);
      assert false;
    }
  }

  /** BUSY-PERIOD LAW. Over a busy period the session starts as many writes as it was given
      messages, and the message that opened the period is both the first and the last one
      transmitted. */
  lemma BusyPeriodLaw<M>(s: Link<M>, es: seq<Event<M>>)
    requires BusyPeriod(s, es)
    ensures var posted, sent := PostsOf(es), Sent(s, es);
            |sent| == |posted| > 0 && sent[0] == posted[0] && sent[|sent| - 1] == posted[0]
  {
    var f := BusyPeriodIsATree(s, es);
    PostsOfEvents(f);
    IdleForestSends(s, f);
    SentUnderShape(f.msg, f.kids);
    SentFromIdleLength(f);
    assert SentFromIdle(f) == [f.msg] + SentUnder(f.msg, f.kids);
  }

  /** While a deque is non-empty its back never changes: a busy period keeps its opener there. */
  lemma {:induction false} BackOfTheDequeStays<M>(s: Link<M>, es: seq<Event<M>>, k: nat)
    requires Legal(s, es) && k <= |es| && s.queue != []
    requires forall j :: 0 < j <= k ==> QueueAfter(s, es, j) != []
    ensures var q := QueueAfter(s, es, k);
            q != [] && q[|q| - 1] == s.queue[|s.queue| - 1]
    decreases k
  {
    if k > 0 {
      var t, rest := Step(s, es[0]), es[1..];
      assert QueueAfter(s, es, 1) == QueueAfter(t, rest, 0);
      forall j | 0 < j <= k - 1
        ensures QueueAfter(t, rest, j) != []
      {
        assert QueueAfter(s, es, j + 1) == QueueAfter(t, rest, j);
      }
      BackOfTheDequeStays(t, rest, k - 1);
    }
  }

  lemma OpenerStaysAtTheBack<M>(s: Link<M>, es: seq<Event<M>>, k: nat)
    requires BusyPeriod(s, es) && 0 < k < |es|
    ensures var q := QueueAfter(s, es, k);
            q != [] && q[|q| - 1] == PostsOf(es)[0]
  {
    var f := BusyPeriodIsATree(s, es);
    var t, rest := Step(s, es[0]), es[1..];
    forall j | 0 < j <= k - 1
      ensures QueueAfter(t, rest, j) != []
    {
      assert QueueAfter(s, es, j + 1) == QueueAfter(t, rest, j);
    }
    BackOfTheDequeStays(t, rest, k - 1);
  }

  // ---------------------------------------------------------------- repeated and lost messages

  /** The message a step pays for: a `Post` pays for itself on an empty deque, otherwise for
      the message it finds at the front. */
  function ChargeOf<M>(s: Link<M>, e: Event<M>): seq<M> {
    if !e.Post? then [] else if s.queue == [] then [e.msg] else [s.queue[0]]
  }

  function Charges<M>(s: Link<M>, es: seq<Event<M>>): seq<M>
    requires Legal(s, es)
    decreases |es|
  {
    if es == [] then [] else ChargeOf(s, es[0]) + Charges(Step(s, es[0]), es[1..])
  }

  function BelowFront<M>(q: seq<M>): seq<M> {
    if q == [] then [] else q[1..]
  }

  lemma ChargeStep<M>(s: Link<M>, e: Event<M>)
    requires Agrees(s) && CanHappen(s, e)
    ensures var t := Step(s, e);
            t.started[|s.started|..] + BelowFront(t.queue) == ChargeOf(s, e) + BelowFront(s.queue)
  {
    var t := Step(s, e);
    var now := t.started[|s.started|..];
    match e
    case Post(m) =>
      assert now == if s.queue == [] then [m] else [];
    case WriteOk =>
      assert now == if |s.queue| > 1 then [s.queue[1]] else [];
    case WriteFailed =>
      assert now == [];
  }

  /** CONSERVATION, over every run, failed writes included: each `Post` buys exactly one
      transmission, of the message it charges. The transmissions still owed are those of the
      messages below the front of the deque. */
  lemma {:induction false} ChargeLaw<M>(s: Link<M>, es: seq<Event<M>>)
    requires Agrees(s) && Legal(s, es)
    ensures multiset(Sent(s, es)) + multiset(BelowFront(Run(s, es).queue))
         == multiset(BelowFront(s.queue)) + multiset(Charges(s, es))
    decreases |es|
  {
    if es != [] {
      var t := Step(s, es[0]);
      ChargeStep(s, es[0]);
      assert multiset(t.started[|s.started|..] + BelowFront(t.queue))
          == multiset(ChargeOf(s, es[0]) + BelowFront(s.queue));
      ChargeLaw(t, es[1..]);
      JoinAccounts(t.started[|s.started|..], Sent(t, es[1..]), ChargeOf(s, es[0]), Charges(t, es[1..]),
                   multiset(BelowFront(s.queue)), multiset(BelowFront(t.queue)),
                   multiset(BelowFront(Run(s, es).queue)));
    }
  }

  lemma JoinAccounts<M>(sent1: seq<M>, sent2: seq<M>, paid1: seq<M>, paid2: seq<M>,
                     owed0: multiset<M>, owed1: multiset<M>, owed2: multiset<M>)
    requires multiset(sent1) + owed1 == owed0 + multiset(paid1)
    requires multiset(sent2) + owed2 == owed1 + multiset(paid2)
    ensures multiset(sent1 + sent2) + owed2 == owed0 + multiset(paid1 + paid2)
  {
    calc {
      multiset(sent1 + sent2) + owed2;
      multiset(sent1) + (multiset(sent2) + owed2);
      multiset(sent1) + owed1 + multiset(paid2);
      owed0 + multiset(paid1) + multiset(paid2);
      owed0 + multiset(paid1 + paid2);
    }
  }

  /** A message is transmitted by an idle-to-idle run exactly if some `Post` charges it, and as
      often. */
  lemma TransmittedIffCharged<M>(s: Link<M>, es: seq<Event<M>>, m: M)
    requires Idle(s) && Legal(s, es) && Idle(Run(s, es))
    ensures multiset(Sent(s, es)) == multiset(Charges(s, es))
    ensures m in Sent(s, es) <==> m in Charges(s, es)
  {
    ChargeLaw(s, es);
    var owed := multiset(BelowFront([]));
    assert multiset(Sent(s, es)) + owed == multiset(Sent(s, es));
    assert owed + multiset(Charges(s, es)) == multiset(Charges(s, es));
    assert m in Sent(s, es) <==> m in multiset(Sent(s, es));
    assert m in Charges(s, es) <==> m in multiset(Charges(s, es));
  }

  lemma {:induction false} PostIsPosted<M>(es: seq<Event<M>>, i: nat)
    requires i < |es| && es[i].Post?
    ensures es[i].msg in PostsOf(es)
    decreases |es|
  {
    if i > 0 {
      PostIsPosted(es[1..], i - 1);
    }
  }

  lemma {:induction false} NeverCharged<M>(s: Link<M>, es: seq<Event<M>>, m: M)
    requires Legal(s, es) && m !in s.queue && m !in PostsOf(es)
    ensures m !in Charges(s, es)
    decreases |es|
  {
    if es != [] {
      NeverCharged(Step(s, es[0]), es[1..], m);
    }
  }

  lemma DistinctOfCons<T>(x: T, ts: seq<T>)
    requires Distinct([x] + ts)
    ensures x !in ts && Distinct(ts)
  {
    var all := [x] + ts;
    forall i | 0 <= i < |ts|
      ensures ts[i] != x
    {
      assert all[0] == x && all[i + 1] == ts[i];
    }
    forall i, j | 0 <= i < j < |ts|
      ensures ts[i] != ts[j]
    {
      assert all[i + 1] == ts[i] && all[j + 1] == ts[j];
    }
  }

  lemma {:induction false} ChargedExactlyWhen<M>(s: Link<M>, es: seq<Event<M>>, i: nat)
    requires Legal(s, es) && AllOk(es) && Distinct(PostsOf(es))
    requires i + 1 < |es| && es[i].Post? && es[i].msg !in s.queue
    ensures es[i].msg in Charges(s, es) <==> QueueAfter(s, es, i) == [] || es[i + 1].Post?
    decreases i
  {
    var m, t, rest := es[i].msg, Step(s, es[0]), es[1..];
    assert rest[i] == es[i + 1];
    if es[0].Post? {
      DistinctOfCons(es[0].msg, PostsOf(rest));
    } else {
      assert PostsOf(es) == PostsOf(rest);
    }
    if i == 0 {
      if es[1].WriteOk? {
        assert Charges(t, rest) == Charges(Step(t, rest[0]), rest[1..]);
        NeverCharged(Step(t, rest[0]), rest[1..], m);
      }
    } else {
      PostIsPosted(rest, i - 1);
      ChargedExactlyWhen(t, rest, i - 1);
    }
  }

  lemma {:induction false} IdleRunEndsWithACompletion<M>(s: Link<M>, es: seq<Event<M>>)
    requires es != [] && Legal(s, es) && Idle(Run(s, es))
    ensures !es[|es| - 1].Post?
    decreases |es|
  {
    var rest := es[1..];
    if rest != [] {
      IdleRunEndsWithACompletion(Step(s, es[0]), rest);
      assert rest[|rest| - 1] == es[|es| - 1];
    } else {
      assert Run(s, es) == Step(s, es[0]);
    }
  }

  /** LOST EXACTLY WHEN. Of distinct messages, the one posted by event i of an idle-to-idle run
      is never transmitted if and only if it was posted on a non-empty deque and the very next
      event is a completion: the completion of another message's write pops it. */
  lemma LostExactlyWhen<M>(s: Link<M>, es: seq<Event<M>>, i: nat)
    requires Idle(s) && AllOk(es) && Legal(s, es) && Idle(Run(s, es))
    requires Distinct(PostsOf(es)) && i < |es| && es[i].Post?
    ensures i + 1 < |es|
    ensures es[i].msg !in Sent(s, es) <==> QueueAfter(s, es, i) != [] && es[i + 1].WriteOk?
  {
    IdleRunEndsWithACompletion(s, es);
    ChargedExactlyWhen(s, es, i);
    TransmittedIffCharged(s, es, es[i].msg);
  }

  // ---------------------------------------------------------------- when the queue is a FIFO

  /** Every `Post` of the run finds the deque empty (the guard at the top of `Post`). */
  predicate EveryPostFindsIdle<M>(s: Link<M>, es: seq<Event<M>>)
    requires Legal(s, es)
    decreases |es|
  {
    es == [] || ((es[0].Post? ==> s.queue == []) && EveryPostFindsIdle(Step(s, es[0]), es[1..]))
  }

  lemma {:induction false} IdlePostsAreSentInOrder<M>(s: Link<M>, es: seq<Event<M>>)
    requires Legal(s, es) && EveryPostFindsIdle(s, es) && Agrees(s) && |s.queue| <= 1
    ensures Sent(s, es) == PostsOf(es)
    decreases |es|
  {
    if es != [] {
      IdlePostsAreSentInOrder(Step(s, es[0]), es[1..]);
    }
  }

  /** A root with something posted on top of it is transmitted twice. */
  lemma {:induction false} BusyRootIsRepeated<M>(s: Link<M>, f: Forest<M>)
    requires Idle(s) && Legal(s, Events(f)) && !EveryPostFindsIdle(s, Events(f))
    ensures exists m :: m in Posted(f) && multiset(SentFromIdle(f))[m] > 1
    decreases f
  {
    if f.Tree? {
      var m, es := f.msg, Events(f);
      if f.kids == Empty {
        var t := Step(Step(s, Post(m)), WriteOk);
        assert es[1..] == [WriteOk] + Events(f.rest) && es[1..][1..] == Events(f.rest);
        RunOnIdle(t, f.rest);
        BusyRootIsRepeated(t, f.rest);
        var n :| n in Posted(f.rest) && multiset(SentFromIdle(f.rest))[n] > 1;
        assert n in Posted(f);
      } else {
        SentUnderShape(m, f.kids);
        var u := SentUnder(m, f.kids);
        assert m == u[|u| - 1];
        assert multiset(SentFromIdle(f)) == multiset{m} + multiset(u) + multiset(SentFromIdle(f.rest));
        assert m in multiset(u);
        assert m in Posted(f);
      }
    }
  }

  lemma {:induction false} DistinctCounts<M>(ms: seq<M>, m: M)
    requires Distinct(ms)
    ensures multiset(ms)[m] <= 1
    decreases |ms|
  {
    if ms != [] {
      assert ms == [ms[0]] + ms[1..];
      DistinctCounts(ms[1..], m);
    }
  }

  /** Sends that are as many as the distinct posts, and miss none, are a permutation of them. */
  lemma NothingMissedIsPermutation<M>(posted: seq<M>, sent: seq<M>)
    requires Distinct(posted) && |posted| == |sent|
    requires forall m :: m in posted ==> m in sent
    ensures multiset(posted) == multiset(sent)
  {
    forall m
      ensures multiset(posted)[m] <= multiset(sent)[m]
    {
      DistinctCounts(posted, m);
      if m in multiset(posted) {
        assert m in posted && m in sent;
      }
    }
    var extra := multiset(sent) - multiset(posted);
    assert multiset(sent) == multiset(posted) + extra;
    assert |extra| == 0;
  }

  /** FIFO EXACTLY WHEN IDLE. For distinct messages, an idle-to-idle run without failures
      transmits the posted sequence if and only if every `Post` found the deque empty; and that
      is also exactly when no posted message is lost. */
  lemma FifoIffEveryPostFindsIdle<M>(s: Link<M>, es: seq<Event<M>>)
    requires Idle(s) && AllOk(es) && Legal(s, es) && Idle(Run(s, es))
    requires Distinct(PostsOf(es))
    ensures Sent(s, es) == PostsOf(es) <==> EveryPostFindsIdle(s, es)
    ensures (forall m :: m in PostsOf(es) ==> m in Sent(s, es)) <==> EveryPostFindsIdle(s, es)
  {
    var posted, sent := PostsOf(es), Sent(s, es);
    if EveryPostFindsIdle(s, es) {
      IdlePostsAreSentInOrder(s, es);
    } else {
      EveryIdleRunIsAForest(s, es);
      var f :| es == Events(f);
      PostsOfEvents(f);
      IdleForestSends(s, f);
      SentFromIdleLength(f);
      BusyRootIsRepeated(s, f);
      var m :| m in posted && multiset(sent)[m] > 1;
      DistinctCounts(posted, m);
      if forall n :: n in posted ==> n in sent {
        NothingMissedIsPermutation(posted, sent);
        assert false;
      }
    }
  }

  // ---------------------------------------------------------------- equal messages

  /** The same run with every message replaced by the number of its `Post`, counted from `k`. */
  function Numbered<M>(es: seq<Event<M>>, k: nat): seq<Event<nat>> {
    if es == [] then []
    else
      match es[0]
      case Post(_) => [Post(k)] + Numbered(es[1..], k + 1)
      case WriteOk => [WriteOk] + Numbered(es[1..], k)
      case WriteFailed => [WriteFailed] + Numbered(es[1..], k)
  }

  /** `ks` are numbers of messages in `ms`, and `q` are those messages. */
  predicate Denotes<M(==)>(ks: seq<nat>, ms: seq<M>, q: seq<M>) {
    |ks| == |q| && forall i :: 0 <= i < |q| ==> ks[i] < |ms| && q[i] == ms[ks[i]]
  }

  lemma DenotesConcat<M>(ms: seq<M>, ks1: seq<nat>, ks2: seq<nat>, q1: seq<M>, q2: seq<M>)
    requires Denotes(ks1, ms, q1) && Denotes(ks2, ms, q2)
    ensures Denotes(ks1 + ks2, ms, q1 + q2)
  {
  }

  predicate SameShape<M(==)>(a: Link<nat>, ms: seq<M>, s: Link<M>) {
    Denotes(a.queue, ms, s.queue) && a.pending == s.pending && a.closed == s.closed
  }

  lemma StepKeepsShape<M>(a: Link<nat>, ms: seq<M>, s: Link<M>, x: Event<nat>, e: Event<M>)
    requires SameShape(a, ms, s) && CanHappen(s, e)
    requires match e
             case Post(m) => x.Post? && x.msg < |ms| && ms[x.msg] == m
             case WriteOk => x.WriteOk?
             case WriteFailed => x.WriteFailed?
    ensures CanHappen(a, x) && SameShape(Step(a, x), ms, Step(s, e))
    ensures Denotes(Step(a, x).started[|a.started|..], ms, Step(s, e).started[|s.started|..])
  {
  }

  lemma {:induction false} NumberedRuns<M>(a: Link<nat>, ms: seq<M>, s: Link<M>, es: seq<Event<M>>, k: nat)
    requires SameShape(a, ms, s) && Legal(s, es) && k <= |ms| && ms[k..] == PostsOf(es)
    ensures Legal(a, Numbered(es, k)) && SameShape(Run(a, Numbered(es, k)), ms, Run(s, es))
    ensures Denotes(Sent(a, Numbered(es, k)), ms, Sent(s, es))
    ensures EveryPostFindsIdle(a, Numbered(es, k)) <==> EveryPostFindsIdle(s, es)
    decreases |es|
  {
    if es != [] {
      var x, n := Numbered(es, k)[0], if es[0].Post? then k + 1 else k;
      assert Numbered(es, k)[1..] == Numbered(es[1..], n);
      assert ms[n..] == PostsOf(es[1..]) && (es[0].Post? ==> ms[k] == es[0].msg);
      StepKeepsShape(a, ms, s, x, es[0]);
      hide Step, Denotes, PostsOf, CanHappen;
      NumberedRuns(Step(a, x), ms, Step(s, es[0]), es[1..], n);
      DenotesConcat(ms, Step(a, x).started[|a.started|..], Sent(Step(a, x), Numbered(es[1..], n)),
                    Step(s, es[0]).started[|s.started|..], Sent(Step(s, es[0]), es[1..]));
    }
  }

  lemma {:induction false} NumbersInOrder<M>(es: seq<Event<M>>, k: nat)
    ensures var ns := PostsOf(Numbered(es, k));
            |ns| == |PostsOf(es)| && forall i :: 0 <= i < |ns| ==> ns[i] == k + i
    ensures AllOk(es) ==> AllOk(Numbered(es, k))
    decreases |es|
  {
    if es != [] {
      var n := if es[0].Post? then k + 1 else k;
      NumbersInOrder(es[1..], n);
      assert Numbered(es, k)[1..] == Numbered(es[1..], n);
    }
  }

  lemma InOrder(ns: seq<nat>, posted: seq<nat>)
    requires forall i :: 0 <= i < |posted| ==> posted[i] == i
    ensures Distinct(posted)
    ensures |ns| == |posted| ==> (ns == posted <==> forall i :: 0 <= i < |ns| ==> ns[i] == i)
  {
  }

  /** FIFO, whatever is posted. For any messages, equal or not, each write of an idle-to-idle run
      carries the message of one particular `Post`; and the writes carry the first `Post`, the
      second, and so on in order if and only if every `Post` found the deque empty. */
  lemma WritesFollowPostsIffEachFindsIdle<M>(s: Link<M>, es: seq<Event<M>>)
    requires Idle(s) && AllOk(es) && Legal(s, es) && Idle(Run(s, es))
    ensures Legal(Fresh(), Numbered(es, 0))
    ensures var ns := Sent(Fresh(), Numbered(es, 0));
            && Denotes(ns, PostsOf(es), Sent(s, es)) && |ns| == |PostsOf(es)|
            && ((forall i :: 0 <= i < |ns| ==> ns[i] == i) <==> EveryPostFindsIdle(s, es))
  {
    var a, numbered := Fresh<nat>(), Numbered(es, 0);
    NumberedRuns(a, PostsOf(es), s, es, 0);
    NumbersInOrder(es, 0);
    hide Legal, Run, Step, Numbered, PostsOf, Sent, EveryPostFindsIdle, Distinct;
    InOrder(Sent(a, numbered), PostsOf(numbered));
    FifoIffEveryPostFindsIdle(a, numbered);
    AsManySentAsPosted(a, numbered);
  }

  // ---------------------------------------------------------------- bursts

  function Posts<M>(ms: seq<M>): seq<Event<M>> {
    if ms == [] then [] else [Post(ms[0])] + Posts(ms[1..])
  }

  function Oks<M>(n: nat): seq<Event<M>> {
    if n == 0 then [] else [WriteOk] + Oks(n - 1)
  }

  function Reverse<M>(ms: seq<M>): seq<M> {
    if ms == [] then [] else Reverse(ms[1..]) + [ms[0]]
  }

  /** A burst is a tree without branches. */
  function Chain<M>(ms: seq<M>): Forest<M> {
    if ms == [] then Empty else Tree(ms[0], Chain(ms[1..]), Empty)
  }

  lemma {:induction false} OksSnoc<M>(n: nat)
    ensures Oks<M>(n) + [WriteOk] == Oks<M>(n + 1)
  {
    if n > 0 {
      OksSnoc<M>(n - 1);
      assert Oks<M>(n) + [WriteOk] == [WriteOk] + (Oks<M>(n - 1) + [WriteOk]);
    }
  }

  lemma {:induction false} ChainIsBurst<M>(ms: seq<M>)
    ensures Events(Chain(ms)) == Posts(ms) + Oks<M>(|ms|)
  {
    if ms != [] {
      ChainIsBurst(ms[1..]);
      OksSnoc<M>(|ms| - 1);
      var p, n := Posts(ms[1..]), |ms| - 1;
      assert [Post(ms[0])] + (p + Oks<M>(n)) + [WriteOk] + [] == [Post(ms[0])] + p + (Oks<M>(n) + [WriteOk]);
    }
  }

  lemma {:induction false} ChainSends<M>(p: M, ms: seq<M>)
    requires ms != []
    ensures SentUnder(p, Chain(ms)) == Reverse([p] + ms[..|ms| - 1])
    decreases |ms|
  {
    assert ([p] + ms[..|ms| - 1])[1..] == ms[..|ms| - 1];
    if |ms| == 1 {
      assert Chain(ms).kids == Empty;
    } else {
      var rest := ms[1..];
      ChainSends(ms[0], rest);
      assert [ms[0]] + rest[..|rest| - 1] == ms[..|ms| - 1];
    }
  }

  /** BURST. When all of `ms` is posted before the first completion, the transmitted sequence is
      the first message followed by all messages but the last in reverse. */
  lemma BurstIsReversed<M>(s: Link<M>, ms: seq<M>)
    requires Idle(s) && ms != []
    ensures Legal(s, Posts(ms) + Oks(|ms|))
    ensures Idle(Run(s, Posts(ms) + Oks(|ms|)))
    ensures Sent(s, Posts(ms) + Oks(|ms|)) == [ms[0]] + Reverse(ms[..|ms| - 1])
  {
    var es, f := Posts(ms) + Oks(|ms|), Chain(ms);
    ChainIsBurst(ms);
    IdleForestSends(s, f);
    assert SentFromIdle(f) == [ms[0]] + SentUnder(ms[0], f.kids);
    if |ms| > 1 {
      ChainSends(ms[0], ms[1..]);
      assert [ms[0]] + ms[1..][..|ms| - 2] == ms[..|ms| - 1];
    } else {
      assert ms[..0] == [];
    }
  }

  /** DRAINING. An open session left alone completes everything: as many completions as there are
      queued messages can follow, they leave it idle, and they transmit the messages below the
      front from front to back. */
  lemma {:induction false} QueueDrains<M>(s: Link<M>)
    requires Agrees(s) && !s.closed
    ensures Legal(s, Oks<M>(|s.queue|)) && Idle(Run(s, Oks<M>(|s.queue|)))
    ensures Run(s, Oks<M>(|s.queue|)).started == s.started + BelowFront(s.queue)
    decreases |s.queue|
  {
    if s.queue != [] {
      var t, rest := Step(s, WriteOk), Oks<M>(|s.queue| - 1);
      assert Oks<M>(|s.queue|)[1..] == rest;
      QueueDrains(t);
      assert t.started + BelowFront(t.queue) == s.started + BelowFront(s.queue);
    }
  }
}
