/**
 What the capture buffer does, against a reference that has no buffer.

 The reference collects the packet that opened a capture and every later read, in handler
 order, and gives the picture out as soon as it is longer than declared. The session, with its
 10 MiB buffer, its write position, its two counters and its erasing, is shown to give out the
 same pictures in every run.
 */
module Reassembly {
  import opened Messages
  import opened Capture
  import opened CaptureAccounts
  import opened Decisions

  // ---------------------------------------------------------------- the reference

  datatype Assembler = Closed | Open(declared: nat, bytes: seq<byte>)

  function Collect(m: Assembler, e: Event): Assembler {
    if !e.ReadOk? then m
    else match m
      case Closed =>
        if e.answers.headType == 11 && 0 < e.answers.frameSize < 10485760
        then Open(e.answers.frameSize, e.data) else Closed
      case Open(n, b) =>
        if |b + e.data| > n then Closed else Open(n, b + e.data)
  }

  /** The pictures one event completes: at most one. */
  function Finished(m: Assembler, e: Event): seq<seq<byte>> {
    if m.Open? && e.ReadOk? && |m.bytes + e.data| > m.declared then [m.bytes + e.data] else []
  }

  function After(m: Assembler, es: seq<Event>): Assembler
    decreases |es|
  {
    if es == [] then m else After(Collect(m, es[0]), es[1..])
  }

  function Pictures(m: Assembler, es: seq<Event>): seq<seq<byte>>
    decreases |es|
  {
    if es == [] then [] else Finished(m, es[0]) + Pictures(Collect(m, es[0]), es[1..])
  }

  lemma {:induction false} PicturesConcat(m: Assembler, a: seq<Event>, b: seq<Event>)
    ensures After(m, a + b) == After(After(m, a), b)
    ensures Pictures(m, a + b) == Pictures(m, a) + Pictures(After(m, a), b)
    decreases |a|
  {
    hide Collect, Finished;
    if a == [] {
      assert a + b == b;
    } else {
      assert (a + b)[0] == a[0] && (a + b)[1..] == a[1..] + b;
      PicturesConcat(Collect(m, a[0]), a[1..], b);
    }
  }

  // ---------------------------------------------------------------- the pictures handed over

  /** The pictures among the calls of a session, in order. */
  function Handed(fx: seq<Effect>): seq<seq<byte>> {
    if fx == [] then []
    else Handed(fx[..|fx| - 1]) + (if fx[|fx| - 1].HandedOver? then [fx[|fx| - 1].picture] else [])
  }

  lemma HandedOne(fx: seq<Effect>, x: Effect)
    ensures Handed(fx + [x]) == Handed(fx) + (if x.HandedOver? then [x.picture] else [])
  {
    assert (fx + [x])[..|fx|] == fx;
  }

  lemma {:induction false} HandedIsCounted(fx: seq<Effect>)
    ensures |Handed(fx)| == TallyOf(fx).handed
  {
    if fx != [] {
      HandedIsCounted(fx[..|fx| - 1]);
    }
  }

  lemma {:induction false} HandedGrows(a: seq<Effect>, b: seq<Effect>)
    requires a <= b
    ensures Handed(a) <= Handed(b)
    decreases |b|
  {
    if a == b {
    } else {
      HandedGrows(a, b[..|b| - 1]);
    }
  }

  /** Calls are only ever added. */
  lemma EffectsGrow(s: Session, e: Event)
    requires |s.pic| == PIC_BUFFER_LEN && CanHappen(s, e) && Fits(s, e)
    ensures s.effects <= Step(s, e).effects
  {
    hide Copied, Zeros, Wrap32, Command, FrameCalls;
    if e.ReadOk? {
      if s.capturing {
        CopiedLength(s.pic, s.pos, e.data);
      } else {
        FrameOutcome(s.(pendingReads := s.pendingReads - 1), e.data, e.answers);
      }
    }
  }

  lemma NothingHanded(s: Session, e: Event)
    requires |s.pic| == PIC_BUFFER_LEN && CanHappen(s, e) && Fits(s, e) && !Completes(s, e)
    ensures Handed(Step(s, e).effects) == Handed(s.effects)
  {
    hide Step, Handed, TallyOf;
    StepBalances(s, e);
    EffectsGrow(s, e);
    HandedIsCounted(s.effects);
    HandedIsCounted(Step(s, e).effects);
    HandedGrows(s.effects, Step(s, e).effects);
  }

  // ---------------------------------------------------------------- the buffer

  /** A buffer of `n` bytes that holds `b` and is otherwise zero. */
  function Padded(b: seq<byte>, n: nat): seq<byte>
    requires |b| <= n
  {
    b + Zeros(n - |b|)
  }

  lemma CopyExtends(b: seq<byte>, n: nat, data: seq<byte>)
    requires |b| + |data| <= n
    ensures Copied(Padded(b, n), |b|, data) == Padded(b + data, n)
    ensures Padded(b + data, n)[..|b + data|] == b + data
  {
  }

  /** The session holds exactly what the reference has collected: in capture mode the buffer is
      the collected bytes and then zeros, the position is their number, and `res.frameSize` is
      still the declared size; in command mode the whole buffer is zero. */
  ghost predicate Holds(s: Session, m: Assembler) {
    && |s.pic| == PIC_BUFFER_LEN
    && match m
       case Closed => !s.capturing && s.pic == Zeros(PIC_BUFFER_LEN)
       case Open(n, b) =>
         && s.capturing && s.frameSize == n && 0 < n < 10485760
         && s.pos == |b| <= PIC_BUFFER_LEN && s.pic == Padded(b, PIC_BUFFER_LEN)
         && 0 < |b| && (|b| <= n || |b| <= MAX_PACKET_LEN)
  }

  lemma ChunkHolds(s: Session, m: Assembler, e: Event)
    requires Holds(s, m) && m.Open? && CanHappen(s, e) && Fits(s, e) && e.ReadOk?
    ensures Holds(Step(s, e), Collect(m, e))
    ensures Handed(Step(s, e).effects) == Handed(s.effects) + Finished(m, e)
  {
    var b := m.bytes + e.data;
    CopyExtends(m.bytes, PIC_BUFFER_LEN, e.data);
    if |b| > m.declared {
      HandedOne(s.effects, HandedOver(b));
      HandedOne(s.effects + [HandedOver(b)], ResultStored);
      hide Handed, Padded, Copied;
      assert s.effects + [HandedOver(b)] + [] == s.effects + [HandedOver(b)];
    } else {
      NothingHanded(s, e);
    }
  }

  lemma OpeningHolds(s: Session, e: Event)
    requires Holds(s, Closed) && CanHappen(s, e) && e.ReadOk?
    ensures Holds(Step(s, e), Collect(Closed, e))
  {
    var a, t := e.answers, s.(pendingReads := s.pendingReads - 1);
    if a.headType == SNAP {
      CopyExtends([], PIC_BUFFER_LEN, e.data);
      assert Padded([], PIC_BUFFER_LEN) == Zeros(PIC_BUFFER_LEN) && [] + e.data == e.data;
    } else {
      QuietCommand(t, e.data, a);
    }
  }

  /** Only a snapshot frame touches the buffer in command mode. */
  lemma QuietCommand(s: Session, data: seq<byte>, a: Answers)
    requires |data| <= |s.pic| && a.headType != SNAP
    ensures var t := Command(s, data, a);
            && t.pic == s.pic && t.pos == s.pos && t.capturing == s.capturing
            && t.frameSize == s.frameSize && t.received == s.received
  {
    hide Command, FrameCalls, DeviceAfterFrame;
    FrameOutcome(s, data, a);
  }

  lemma StepHolds(s: Session, m: Assembler, e: Event)
    requires Holds(s, m) && CanHappen(s, e) && Fits(s, e)
    ensures Holds(Step(s, e), Collect(m, e))
    ensures Handed(Step(s, e).effects) == Handed(s.effects) + Finished(m, e)
  {
    if m.Open? && e.ReadOk? {
      ChunkHolds(s, m, e);
    } else {
      NothingHanded(s, e);
      if e.ReadOk? {
        OpeningHolds(s, e);
      }
    }
  }

  lemma {:induction false} RunHolds(s: Session, m: Assembler, es: seq<Event>)
    requires Holds(s, m) && Legal(s, es)
    ensures Holds(Run(s, es), After(m, es))
    ensures Handed(Run(s, es).effects) == Handed(s.effects) + Pictures(m, es)
    decreases |es|
  {
    hide Step, Holds, Collect, Finished, Handed;
    if es != [] {
      StepHolds(s, m, es[0]);
      HoldsLength(s, m);
      RunHolds(Step(s, es[0]), Collect(m, es[0]), es[1..]);
    }
  }

  lemma HoldsLength(s: Session, m: Assembler)
    requires Holds(s, m)
    ensures |s.pic| == PIC_BUFFER_LEN
  {
  }

  lemma OpenedHolds(r0: int, m0: int)
    ensures Holds(Opened(r0, m0), Closed) && Handed(Opened(r0, m0).effects) == []
  {
  }

  /** REASSEMBLY. In every run the session hands over exactly the reference's pictures, in order.
      While a capture is open the buffer holds its opening packet and every later chunk in
      handler order, and zeros behind them; otherwise it is all zero, so that no byte of one
      capture can reach another. */
  lemma SessionRefinesAssembler(r0: int, m0: int, es: seq<Event>)
    requires Legal(Opened(r0, m0), es)
    ensures var t := Run(Opened(r0, m0), es);
            && Handed(t.effects) == Pictures(Closed, es)
            && Holds(t, After(Closed, es))
  {
    OpenedHolds(r0, m0);
    RunHolds(Opened(r0, m0), Closed, es);
  }
}
