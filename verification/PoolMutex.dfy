/**
 `get_io_service` called by any number of threads at once. Every line of its body is a step of
 its own, and the steps of different threads interleave freely; only the mutex orders them.
 */
module PoolMutex {
  import opened Arithmetic
  import opened RoundRobin

  /** Where a thread stands in `get_io_service`; from `Fetched` on it holds the service it will
      return. */
  datatype Place = Outside | Locked | Fetched(service: nat) | Incremented(service: nat) | Wrapped(service: nat)

  datatype Owner = Free | HeldBy(thread: nat)

  /** Threads that are not in `places` are outside. `returned` is what the finished calls
      returned, in the order they gave up the mutex. */
  datatype State = State(owner: Owner, next: nat, places: map<nat, Place>, returned: seq<nat>) {
    function At(t: nat): Place {
      if t in places then places[t] else Outside
    }

    function Move(t: nat, p: Place): State {
      this.(places := places[t := p])
    }
  }

  const INITIAL := State(Free, 0, map[], [])

  /** A thread outside can only take the mutex while it is free; all else never blocks. */
  predicate CanStep(s: State, t: nat) {
    s.At(t).Outside? ==> s.owner.Free?
  }

  function Step(size: nat, s: State, t: nat): State
    requires CanStep(s, t)
  {
    match s.At(t)
    case Outside => s.Move(t, Locked).(owner := HeldBy(t))
    case Locked => s.Move(t, Fetched(s.next))
    case Fetched(v) => s.Move(t, Incremented(v)).(next := s.next + 1)
    case Incremented(v) => s.Move(t, Wrapped(v)).(next := if s.next == size then 0 else s.next)
    case Wrapped(v) => s.Move(t, Outside).(owner := Free, returned := s.returned + [v])
  }

  predicate Legal(size: nat, s: State, ts: seq<nat>)
    decreases |ts|
  {
    ts == [] || (CanStep(s, ts[0]) && Legal(size, Step(size, s, ts[0]), ts[1..]))
  }

  function Run(size: nat, s: State, ts: seq<nat>): State
    requires Legal(size, s, ts)
    decreases |ts|
  {
    if ts == [] then s else Run(size, Step(size, s, ts[0]), ts[1..])
  }

  /** What holds between any two steps: only the owner is inside, and cursor, owner's place and
      finished calls fit together. */
  ghost predicate Consistent(size: nat, s: State)
    requires size > 0
  {
    var k := |s.returned|;
    && s.returned == Draws(size, 0, k)
    && (forall t :: !s.At(t).Outside? ==> s.owner == HeldBy(t))
    && match s.owner
       case Free => s.next == k % size
       case HeldBy(t) =>
         match s.At(t)
         case Outside => false
         case Locked => s.next == k % size
         case Fetched(v) => s.next == v == k % size
         case Incremented(v) => v == k % size && s.next == v + 1
         case Wrapped(v) => v == k % size && s.next == (k + 1) % size
  }

  lemma {:induction false} DrawsSnoc(n: nat, a: nat, k: nat)
    requires n > 0
    ensures Draws(n, a % n, k) + [(a + k) % n] == Draws(n, a % n, k + 1)
    decreases k
  {
    if k > 0 {
      AdvanceIsModular(n, a);
      DrawsSnoc(n, a + 1, k - 1);
      var rest := Draws(n, Advance(n, a % n), k - 1);
      assert [a % n] + rest + [(a + k) % n] == [a % n] + (rest + [(a + k) % n]);
    } else {
      assert Draws(n, Advance(n, a % n), 0) == [];
    }
  }

  lemma StepKeepsConsistent(size: nat, s: State, t: nat)
    requires size > 0 && Consistent(size, s) && CanStep(s, t)
    ensures Consistent(size, Step(size, s, t))
  {
    var k := |s.returned|;
    match s.At(t)
    case Outside =>
    case Locked =>
    case Fetched(v) =>
    case Incremented(v) => AdvanceIsModular(size, k);
    case Wrapped(v) =>
      DrawsSnoc(size, 0, k);
  }

  lemma {:induction false} RunKeepsConsistent(size: nat, s: State, ts: seq<nat>)
    requires size > 0 && Consistent(size, s) && Legal(size, s, ts)
    ensures Consistent(size, Run(size, s, ts))
    decreases |ts|
  {
    if ts != [] {
      StepKeepsConsistent(size, s, ts[0]);
      RunKeepsConsistent(size, Step(size, s, ts[0]), ts[1..]);
    }
  }

  /** SERIALISED. However the threads interleave, the finished calls have returned the services
      in strict rotation from service 0; at most one thread is inside; and a thread about to
      index the vector of services finds the cursor in range, although the cursor does leave
      the range between its increment and its reset. */
  lemma EveryInterleavingGoesRound(size: nat, ts: seq<nat>)
    requires size > 0 && Legal(size, INITIAL, ts)
    ensures var s := Run(size, INITIAL, ts);
            && (forall k :: 0 <= k < |s.returned| ==> s.returned[k] == k % size)
            && (forall t, u :: !s.At(t).Outside? && !s.At(u).Outside? ==> t == u)
            && (forall t :: s.At(t).Locked? ==> s.next < size)
  {
    RunKeepsConsistent(size, INITIAL, ts);
    var s := Run(size, INITIAL, ts);
    forall k | 0 <= k < |s.returned|
      ensures s.returned[k] == k % size
    {
      DrawsGoRound(size, 0, |s.returned|, k);
    }
  }

  /** The finished calls of any interleaving are the calls of one sequential run. */
  lemma EveryInterleavingIsSequential(size: nat, ts: seq<nat>)
    requires size > 0 && Legal(size, INITIAL, ts)
    ensures var r := Run(size, INITIAL, ts).returned;
            r == Draws(size, 0, |r|)
  {
    RunKeepsConsistent(size, INITIAL, ts);
  }

  lemma DrawsPrefix(n: nat, k: nat, w: nat)
    requires n > 0 && k <= w
    ensures Draws(n, 0, w)[..k] == Draws(n, 0, k)
  {
    QuotientIs(0, n, 0);
    forall i | 0 <= i < k
      ensures Draws(n, 0, w)[..k][i] == Draws(n, 0, k)[i]
    {
      DrawsGoRound(n, 0, w, i);
      DrawsGoRound(n, 0, k, i);
    }
  }

  /** FAIRNESS, however the threads interleave. In any window of `w` consecutive finished calls
      each service has been returned floor(w/n) or ceil(w/n) times. */
  lemma EveryInterleavingIsFair(size: nat, ts: seq<nat>, a: nat, w: nat, v: nat)
    requires v < size && Legal(size, INITIAL, ts) && a + w <= |Run(size, INITIAL, ts).returned|
    ensures var r := Run(size, INITIAL, ts).returned;
            w / size <= Count(r[a..a + w], v) <= (w + size - 1) / size
  {
    var r := Run(size, INITIAL, ts).returned;
    EveryInterleavingIsSequential(size, ts);
    DrawsPrefix(size, a + w, |r|);
    assert r[a..a + w] == r[..a + w][a..];
    hide Draws, Count;
    WindowFairness(size, a, w, v);
  }

  // ---------------------------------------------------------------- every call finishes

  /** Thread `t` takes `n` steps in a row. */
  function Turns(t: nat, n: nat): seq<nat> {
    if n == 0 then [] else [t] + Turns(t, n - 1)
  }

  /** The steps a thread inside still has before it. */
  function StepsLeft(p: Place): nat {
    match p
    case Outside => 0
    case Locked => 4
    case Fetched(_) => 3
    case Incremented(_) => 2
    case Wrapped(_) => 1
  }

  /** The call of thread `t` has returned the service whose turn it was, and left the cursor at
      the next one and the mutex free. */
  ghost predicate Finished(size: nat, s: State, t: nat, u: State)
    requires size > 0
  {
    var k := |s.returned|;
    && u.returned == s.returned + [k % size] && u.next == (k + 1) % size
    && u.owner.Free? && u.At(t).Outside?
  }

  lemma {:induction false} InsideFinishes(size: nat, s: State, t: nat)
    requires size > 0 && Consistent(size, s) && s.owner == HeldBy(t)
    ensures 0 < StepsLeft(s.At(t)) <= 4
    ensures Legal(size, s, Turns(t, StepsLeft(s.At(t))))
    ensures Finished(size, s, t, Run(size, s, Turns(t, StepsLeft(s.At(t)))))
    decreases StepsLeft(s.At(t))
  {
    var n := StepsLeft(s.At(t));
    var u, rest := Step(size, s, t), Turns(t, n - 1);
    assert Turns(t, n)[1..] == rest;
    StepKeepsConsistent(size, s, t);
    hide Draws, Consistent;
    if n == 1 {
      assert rest == [];
    } else {
      InsideFinishes(size, u, t);
    }
  }

  /** PROGRESS, inside. In every reachable state in which a thread holds the mutex, no other
      thread can take a step, and at most four steps of its own finish its call. */
  lemma HolderAlwaysFinishes(size: nat, ts: seq<nat>, t: nat)
    requires size > 0 && Legal(size, INITIAL, ts) && Run(size, INITIAL, ts).owner == HeldBy(t)
    ensures var s := Run(size, INITIAL, ts);
            var n := StepsLeft(s.At(t));
            && (forall u :: CanStep(s, u) <==> u == t)
            && 0 < n <= 4 && Legal(size, s, Turns(t, n)) && Finished(size, s, t, Run(size, s, Turns(t, n)))
  {
    RunKeepsConsistent(size, INITIAL, ts);
    var s := Run(size, INITIAL, ts);
    InsideFinishes(size, s, t);
    forall u
      ensures CanStep(s, u) <==> u == t
    {
    }
  }

  /** PROGRESS, outside. In every reachable state in which the mutex is free any thread can make
      its call in five steps: it returns the service whose turn it is. */
  lemma FreePoolServesAnyone(size: nat, ts: seq<nat>, t: nat)
    requires size > 0 && Legal(size, INITIAL, ts) && Run(size, INITIAL, ts).owner.Free?
    ensures var s := Run(size, INITIAL, ts);
            Legal(size, s, Turns(t, 5)) && Finished(size, s, t, Run(size, s, Turns(t, 5)))
  {
    RunKeepsConsistent(size, INITIAL, ts);
    var s := Run(size, INITIAL, ts);
    StepKeepsConsistent(size, s, t);
    InsideFinishes(size, Step(size, s, t), t);
    assert Turns(t, 5)[1..] == Turns(t, 4);
  }
}
