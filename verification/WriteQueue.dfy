/**
 The write queue of one `Tcp_session`, as a state machine.

 A session keeps a deque that `Post` pushes at the FRONT and a completed write pops at the
 FRONT, with at most one write in flight. Since the message popped is the newest one and not
 the one just transmitted, the queue is neither a FIFO nor a plain stack; the lemmas below say
 exactly what it transmits.

 `M` is the type of a message. A session transmits bytes, but the deque holds pointers to
 messages, and where it matters which of two equal messages is meant `M` can be an identity.
 */
module WriteQueue {

  /** One atomic step: a call of `Post`, or the completion of the write in flight. */
  datatype Event<M> = Post(msg: M) | WriteOk | WriteFailed

  /** `queue` is `write_msgs_` front first, `pending` the writes in flight, and `started` every
      message handed to `async_write` so far, in order. */
  datatype Link<M> = Link(queue: seq<M>, pending: nat, closed: bool, started: seq<M>)

  function Fresh<M>(): Link<M> {
    Link([], 0, false, [])
  }

  /** A completion happens only while a write is outstanding; `Post` may be called at any time. */
  predicate CanHappen<M>(s: Link<M>, e: Event<M>) {
    e.Post? || s.pending > 0
  }

  /** The effect of one handler. Popping an empty deque is undefined in C++; it is left empty
      here, and `PopNeverMeetsAnEmptyQueue` shows that this never happens. */
  function Step<M>(s: Link<M>, e: Event<M>): Link<M>
    requires CanHappen(s, e)
  {
    match e
    case Post(m) =>
      var q := [m] + s.queue;
      if s.queue == [] then
        s.(queue := q, pending := s.pending + 1, started := s.started + [q[0]])
      else
        s.(queue := q)
    case WriteOk =>
      var q := if s.queue == [] then [] else s.queue[1..];
      if q == [] then
        s.(queue := q, pending := s.pending - 1)
      else
        s.(queue := q, started := s.started + [q[0]])
    case WriteFailed =>
      s.(pending := s.pending - 1, closed := true)
  }

  predicate Legal<M>(s: Link<M>, es: seq<Event<M>>)
    decreases |es|
  {
    es == [] || (CanHappen(s, es[0]) && Legal(Step(s, es[0]), es[1..]))
  }

  function Run<M>(s: Link<M>, es: seq<Event<M>>): Link<M>
    requires Legal(s, es)
    decreases |es|
  {
    if es == [] then s else Run(Step(s, es[0]), es[1..])
  }

  lemma {:induction false} RunConcat<M>(s: Link<M>, a: seq<Event<M>>, b: seq<Event<M>>)
    ensures Legal(s, a + b) <==> Legal(s, a) && Legal(Run(s, a), b)
    ensures Legal(s, a + b) ==> Run(s, a + b) == Run(Run(s, a), b)
    decreases |a|
  {
    if a == [] {
      assert a + b == b;
    } else {
      assert (a + b)[0] == a[0] && (a + b)[1..] == a[1..] + b;
      if CanHappen(s, a[0]) {
        RunConcat(Step(s, a[0]), a[1..], b);
      }
    }
  }

  // ---------------------------------------------------------------- queue and in-flight write

  /** The agreement between the deque and the socket: an open session has one write in flight
      exactly while its deque is non-empty; a closed one has none, and its deque is non-empty,
      so that a later `Post` cannot start a write either. */
  predicate Agrees<M>(s: Link<M>) {
    if s.closed then s.pending == 0 && s.queue != []
    else s.pending == if s.queue == [] then 0 else 1
  }

  predicate Idle<M>(s: Link<M>) {
    !s.closed && s.queue == [] && s.pending == 0
  }

  lemma {:induction false} QueueAgreesWithSocket<M>(s: Link<M>, es: seq<Event<M>>)
    requires Agrees(s) && Legal(s, es)
    ensures Agrees(Run(s, es))
    decreases |es|
  {
    if es != [] {
      QueueAgreesWithSocket(Step(s, es[0]), es[1..]);
    }
  }

  /** In no run does a completed write pop an empty deque. */
  lemma PopNeverMeetsAnEmptyQueue<M>(es: seq<Event<M>>)
    requires Legal(Fresh<M>(), es) && CanHappen(Run(Fresh<M>(), es), WriteOk)
    ensures Run(Fresh<M>(), es).queue != []
  {
    QueueAgreesWithSocket(Fresh<M>(), es);
  }

  /** Once a failed write has closed the session no write is ever started again, whatever is
      still posted to it, and no completion can follow. */
  lemma {:induction false} NoWriteAfterClose<M>(s: Link<M>, es: seq<Event<M>>)
    requires Agrees(s) && s.closed && Legal(s, es)
    ensures var t := Run(s, es);
            t.closed && t.started == s.started && t.pending == 0
            && |t.queue| == |s.queue| + |es| && t.queue[|es|..] == s.queue
    decreases |es|
  {
    if es != [] {
      NoWriteAfterClose(Step(s, es[0]), es[1..]);
    }
  }

  // ---------------------------------------------------------------- a failed write

  /** A failure can strike whenever a write is in flight, however much is queued. It closes the
      session, takes the write away and touches nothing else. */
  lemma FailureCloses<M>(s: Link<M>)
    requires Agrees(s) && s.pending > 0
    ensures CanHappen(s, WriteFailed)
    ensures Step(s, WriteFailed) == s.(closed := true, pending := 0)
  {
  }

  lemma {:induction false} OnlyPostsWhenClosed<M>(s: Link<M>, es: seq<Event<M>>)
    requires Agrees(s) && s.closed && Legal(s, es)
    ensures forall e :: e in es ==> e.Post?
    decreases |es|
  {
    if es != [] {
      OnlyPostsWhenClosed(Step(s, es[0]), es[1..]);
    }
  }

  /** After the failure of a write, at event `i` of any run, nothing but posts can follow; they
      pile up on the deque as the failure found it, and nothing is transmitted any more. */
  lemma NoWriteAfterFailure<M>(es: seq<Event<M>>, i: nat)
    requires Legal(Fresh(), es) && i < |es| && es[i] == WriteFailed
    ensures forall e :: e in es[i + 1..] ==> e.Post?
    ensures Legal(Fresh(), es[..i])
    ensures var s, t := Run(Fresh(), es[..i]), Run(Fresh(), es);
            && t.closed && t.pending == 0 && t.started == s.started
            && |t.queue| == |s.queue| + (|es| - i - 1) && t.queue[|es| - i - 1..] == s.queue
  {
    var before, after := es[..i], es[i + 1..];
    assert es == before + ([WriteFailed] + after) && ([WriteFailed] + after)[1..] == after;
    RunConcat(Fresh(), before, [WriteFailed] + after);
    QueueAgreesWithSocket(Fresh(), before);
    var s := Run(Fresh(), before);
    FailureCloses(s);
    NoWriteAfterClose(Step(s, WriteFailed), after);
    OnlyPostsWhenClosed(Step(s, WriteFailed), after);
  }

  lemma {:induction false} ClosedIffFailedFrom<M>(s: Link<M>, es: seq<Event<M>>)
    requires Agrees(s) && Legal(s, es)
    ensures Run(s, es).closed <==> s.closed || WriteFailed in es
    decreases |es|
  {
    if es != [] {
      ClosedIffFailedFrom(Step(s, es[0]), es[1..]);
    }
  }

  /** CLOSED EXACTLY WHEN. After any run a session is closed if and only if one of its writes has
      failed; and at most one write ever fails. */
  lemma ClosedIffFailed<M>(es: seq<Event<M>>)
    requires Legal(Fresh(), es)
    ensures Run(Fresh(), es).closed <==> WriteFailed in es
    ensures forall i, j :: 0 <= i < j < |es| && es[i] == WriteFailed ==> es[j].Post?
  {
    ClosedIffFailedFrom(Fresh(), es);
    forall i, j | 0 <= i < j < |es| && es[i] == WriteFailed
      ensures es[j].Post?
    {
      NoWriteAfterFailure(es, i);
      assert es[j] == es[i + 1..][j - i - 1];
    }
  }
}
