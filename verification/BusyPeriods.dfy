/**
 What a session transmits, for every interleaving of `Post` with successful completions.

 Posts and completions nest like brackets: a completion pops the newest message still queued.
 A run that starts and ends idle is therefore a forest, in which the parent of a message is
 the message that was at the front of the deque when it was posted. The session transmits each
 root once when it is posted and, for every other message, that message's PARENT once, in
 postorder. Every law of this module follows from that reference definition.
 */
module BusyPeriods {
  import opened WriteQueue

  /** A forest of posted messages: the first tree is rooted at `msg` with subtrees `kids`. */
  datatype Forest<M> = Empty | Tree(msg: M, kids: Forest<M>, rest: Forest<M>)

  /** The events of a forest: post the root, run through its kids, complete, go on. */
  function Events<M>(f: Forest<M>): seq<Event<M>> {
    match f
    case Empty => []
    case Tree(m, kids, rest) => [Post(m)] + Events(kids) + [WriteOk] + Events(rest)
  }

  /** What is transmitted while `f` runs on top of `parent`: one `parent` per tree, after the
      tree has been dealt with. */
  function SentUnder<M>(parent: M, f: Forest<M>): seq<M>
    decreases f
  {
    match f
    case Empty => []
    case Tree(m, kids, rest) => SentUnder(m, kids) + [parent] + SentUnder(parent, rest)
  }

  /** What is transmitted when the trees of `f` are busy periods of an idle session. */
  function SentFromIdle<M>(f: Forest<M>): seq<M> {
    match f
    case Empty => []
    case Tree(m, kids, rest) => [m] + SentUnder(m, kids) + SentFromIdle(rest)
  }

  /** The messages of a forest, in the order they are posted. */
  function Posted<M>(f: Forest<M>): seq<M> {
    match f
    case Empty => []
    case Tree(m, kids, rest) => [m] + Posted(kids) + Posted(rest)
  }

  predicate AllOk<M>(es: seq<Event<M>>) {
    forall i :: 0 <= i < |es| ==> !es[i].WriteFailed?
  }

  /** The messages posted by a run, in order. */
  function PostsOf<M>(es: seq<Event<M>>): seq<M> {
    if es == [] then []
    else (if es[0].Post? then [es[0].msg] else []) + PostsOf(es[1..])
  }

  /** Posts minus completions: the growth of the deque over a run without failures. */
  function Net<M>(es: seq<Event<M>>): int {
    if es == [] then 0
    else (if es[0].Post? then 1 else -1) + Net(es[1..])
  }

  lemma {:induction false} NetConcat<M>(a: seq<Event<M>>, b: seq<Event<M>>)
    ensures Net(a + b) == Net(a) + Net(b)
    decreases |a|
  {
    if a == [] {
      assert a + b == b;
    } else {
      assert (a + b)[0] == a[0] && (a + b)[1..] == a[1..] + b;
      NetConcat(a[1..], b);
    }
  }

  lemma {:induction false} PostsConcat<M>(a: seq<Event<M>>, b: seq<Event<M>>)
    ensures PostsOf(a + b) == PostsOf(a) + PostsOf(b)
    decreases |a|
  {
    if a == [] {
      assert a + b == b;
    } else {
      assert (a + b)[0] == a[0] && (a + b)[1..] == a[1..] + b;
      PostsConcat(a[1..], b);
    }
  }

  lemma BracketPosts<M>(m: M, inner: seq<Event<M>>, after: seq<Event<M>>)
    ensures var es := [Post(m)] + inner + [WriteOk] + after;
            && PostsOf(es) == [m] + PostsOf(inner) + PostsOf(after) && Net(es) == Net(inner) + Net(after)
            && (AllOk(inner) && AllOk(after) ==> AllOk(es))
  {
    var a, b := [Post(m)] + inner, [WriteOk] + after;
    assert a[1..] == inner && b[1..] == after;
    PostsConcat(a, b);
    NetConcat(a, b);
    assert [Post(m)] + inner + [WriteOk] + after == a + b;
  }

  lemma {:induction false} PostsOfEvents<M>(f: Forest<M>)
    ensures PostsOf(Events(f)) == Posted(f) && AllOk(Events(f)) && Net(Events(f)) == 0
  {
    match f
    case Empty =>
    case Tree(m, kids, rest) =>
      PostsOfEvents(kids);
      PostsOfEvents(rest);
      BracketPosts(m, Events(kids), Events(rest));
  }

  // ---------------------------------------------------------------- forests run as stated

  /** On a busy session a forest leaves the deque as it found it and transmits `SentUnder` the
      message at the front. */
  lemma {:induction false} RunOnBusy<M>(s: Link<M>, f: Forest<M>)
    requires !s.closed && s.queue != [] && s.pending == 1
    ensures Legal(s, Events(f))
    ensures Run(s, Events(f)) == s.(started := s.started + SentUnder(s.queue[0], f))
    decreases f
  {
    match f
    case Empty =>
      assert s.started + [] == s.started;
    case Tree(m, kids, rest) =>
      var s1 := Step(s, Post(m));
      RunOnBusy(s1, kids);
      var s2 := Run(s1, Events(kids));
      assert s2.queue[1..] == s.queue;
      var s3 := Step(s2, WriteOk);
      RunOnBusy(s3, rest);
      RunThrough(s, m, s1, Events(kids), s2, s3, Events(rest));
      assert Run(s, Events(f)).started == s.started + SentUnder(s.queue[0], f);
  }

  /** Runs one bracket: post, an inner run, a completion, and what follows. */
  lemma RunThrough<M>(s: Link<M>, m: M, s1: Link<M>, inner: seq<Event<M>>,
                      s2: Link<M>, s3: Link<M>, after: seq<Event<M>>)
    requires s1 == Step(s, Post(m))
    requires Legal(s1, inner) && s2 == Run(s1, inner)
    requires CanHappen(s2, WriteOk) && s3 == Step(s2, WriteOk)
    requires Legal(s3, after)
    ensures Legal(s, [Post(m)] + inner + [WriteOk] + after)
    ensures Run(s, [Post(m)] + inner + [WriteOk] + after) == Run(s3, after)
  {
    var tail := [WriteOk] + after;
    assert tail[1..] == after;
    RunConcat(s1, inner, tail);
    var all := [Post(m)] + (inner + tail);
    assert all[1..] == inner + tail;
    assert [Post(m)] + inner + [WriteOk] + after == all;
  }

  /** On an idle session each tree is one busy period. */
  lemma {:induction false} RunOnIdle<M>(s: Link<M>, f: Forest<M>)
    requires Idle(s)
    ensures Legal(s, Events(f))
    ensures Run(s, Events(f)) == s.(started := s.started + SentFromIdle(f))
    decreases f
  {
    match f
    case Empty =>
      assert s.started + [] == s.started;
    case Tree(m, kids, rest) =>
      var s1 := Step(s, Post(m));
      RunOnBusy(s1, kids);
      var s2 := Run(s1, Events(kids));
      var s3 := Step(s2, WriteOk);
      RunOnIdle(s3, rest);
      RunThrough(s, m, s1, Events(kids), s2, s3, Events(rest));
      assert Run(s, Events(f)).started == s.started + SentFromIdle(f);
  }

  // ---------------------------------------------------------------- every run is a forest

  /** Reads the longest forest off the front of a run that closes at least as many brackets as
      it opens; what is left is empty or starts with an unmatched completion. */
  lemma {:induction false} ParseForest<M>(es: seq<Event<M>>) returns (f: Forest<M>, left: seq<Event<M>>)
    requires AllOk(es) && Net(es) <= 0
    ensures es == Events(f) + left
    ensures left == [] || left[0] == WriteOk
    ensures AllOk(left) && Net(left) == Net(es)
    decreases |es|
  {
    if es == [] || es[0].WriteOk? {
      f, left := Empty, es;
    } else {
      var kids, left1 := ParseForest(es[1..]);
      var rest, left2 := ParseForest(left1[1..]);
      f, left := Tree(es[0].msg, kids, rest), left2;
      JoinTree(es, kids, left1, rest, left);
      PostsOfEvents(f);
      NetConcat(Events(f), left);
    }
  }

  lemma JoinTree<M>(es: seq<Event<M>>, kids: Forest<M>, left1: seq<Event<M>>, rest: Forest<M>, left: seq<Event<M>>)
    requires es != [] && es[0].Post? && es[1..] == Events(kids) + left1
    requires left1 != [] && left1[0] == WriteOk && left1[1..] == Events(rest) + left
    ensures es == Events(Tree(es[0].msg, kids, rest)) + left
  {
    assert es == [es[0]] + es[1..] && left1 == [left1[0]] + left1[1..];
    Regroup([es[0]], Events(kids), [WriteOk], Events(rest), left);
  }

  lemma Regroup<M>(a: seq<Event<M>>, b: seq<Event<M>>, c: seq<Event<M>>, d: seq<Event<M>>, e: seq<Event<M>>)
    ensures a + (b + (c + (d + e))) == a + b + c + d + e
  {
    assert c + (d + e) == c + d + e;
    assert b + (c + d + e) == b + c + d + e;
    assert a + (b + c + d + e) == a + b + c + d + e;
  }

  lemma {:induction false} QueueGrowsByNet<M>(s: Link<M>, es: seq<Event<M>>)
    requires Agrees(s) && Legal(s, es) && AllOk(es) && !s.closed
    ensures |Run(s, es).queue| == |s.queue| + Net(es)
    decreases |es|
  {
    if es != [] {
      QueueGrowsByNet(Step(s, es[0]), es[1..]);
    }
  }

  /** THE REFERENCE. Every run of posts and successful completions that goes from idle to idle,
      and no other, is the run of a forest; and what it transmits is `SentFromIdle`. */
  lemma EveryIdleRunIsAForest<M>(s: Link<M>, es: seq<Event<M>>)
    requires Idle(s) && AllOk(es)
    ensures (Legal(s, es) && Idle(Run(s, es))) <==> (exists f :: es == Events(f))
    ensures forall f :: es == Events(f) ==> Legal(s, es) && Run(s, es).started == s.started + SentFromIdle(f)
  {
    forall f | es == Events(f)
      ensures Legal(s, es) && Run(s, es) == s.(started := s.started + SentFromIdle(f))
    {
      RunOnIdle(s, f);
    }
    if Legal(s, es) && Idle(Run(s, es)) {
      QueueGrowsByNet(s, es);
      var f, left := ParseForest(es);
      RunOnIdle(s, f);
      RunConcat(s, Events(f), left);
      assert left == [];
      assert es == Events(f);
    }
  }
}
