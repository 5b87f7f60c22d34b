/**
 How far a capture can extend, when its buffer is large enough, and how its two counters agree.
 */
module CaptureBounds {
  import opened Messages
  import opened Capture
  import opened CaptureAccounts
  import opened Reassembly

  function Max(x: nat, y: nat): nat {
    if x < y then y else x
  }

  /** EXTENT. A capture of declared size F never extends past max(F, 84210) before a chunk
      arrives, nor past max(F, 84210) + 84210 with it. */
  lemma ExtentBound(r0: int, m0: int, es: seq<Event>, e: Event)
    requires Legal(Opened(r0, m0), es)
    requires Run(Opened(r0, m0), es).capturing && CanHappen(Run(Opened(r0, m0), es), e) && e.ReadOk?
    ensures var s := Run(Opened(r0, m0), es);
            && 0 < s.pos <= Max(s.frameSize, 84210)
            && s.pos + |e.data| <= Max(s.frameSize, 84210) + 84210
  {
    SessionRefinesAssembler(r0, m0, es);
  }

  /** `n` chunks of one byte. */
  function Bytes(n: nat): seq<Event> {
    if n == 0 then [] else [ReadOk([0], SILENT_ANSWERS)] + Bytes(n - 1)
  }

  lemma {:induction false} BytesFillUp(s: Session, n: nat)
    requires |s.pic| == PIC_BUFFER_LEN && s.capturing && s.pendingReads > 0
    requires s.pos + n <= s.frameSize < PIC_BUFFER_LEN
    ensures Legal(s, Bytes(n)) && Genuine(s, Bytes(n))
    ensures var t := Run(s, Bytes(n));
            t.capturing && t.pos == s.pos + n && t.frameSize == s.frameSize && t.pendingReads == s.pendingReads
    decreases n
  {
    hide Copied, Zeros, Wrap32;
    if n > 0 {
      var es := Bytes(n);
      assert es[1..] == Bytes(n - 1);
      CopiedLength(s.pic, s.pos, [0]);
      BytesFillUp(Step(s, es[0]), n - 1);
    }
  }

  lemma PacketIsParsed(n: nat, frameType: byte)
    requires n < 0x1_0000_0000
    ensures LittleEndian(Packet(n, frameType)[..4]) == n && Packet(n, frameType)[4] == frameType
  {
    var n1 := n / 256;
    var n2 := n1 / 256;
    assert n == 256 * n1 + n % 256;
    assert n1 == 256 * n2 + n1 % 256;
    assert n2 == 256 * (n2 / 256) + n2 % 256;
  }

  /** Opens a capture of size `n` with a packet of five bytes, and has the opening answered. */
  function OpenCapture(n: nat): Event {
    ReadOk(Packet(n, 11), SILENT_ANSWERS.(headType := SNAP, frameSize := n, frameLen := REPLY_LEN))
  }

  /** The opening packet and then single bytes, up to exactly the declared size. */
  function FillUp(n: nat): seq<Event>
    requires n >= 5
  {
    [OpenCapture(n)] + Bytes(n - 5)
  }

  /** For any size the guard accepts, if it is at least that of the opening packet, there is a run
      that fills the buffer up to exactly that size without completing the capture. */
  lemma CaptureFillsUp(r0: int, m0: int, n: nat)
    requires 5 <= n < 10485760
    ensures Legal(Opened(r0, m0), FillUp(n)) && Genuine(Opened(r0, m0), FillUp(n))
    ensures var t := Run(Opened(r0, m0), FillUp(n));
            t.capturing && t.pos == t.frameSize == n && t.pendingReads > 0
  {
    hide Copied, Wrap32;
    var s, open := Opened(r0, m0), OpenCapture(n);
    var es := FillUp(n);
    assert es[0] == open && es[1..] == Bytes(n - 5);
    PacketIsParsed(n, 11);
    assert |Copied(s.pic, 0, open.data)| == PIC_BUFFER_LEN by { CopiedLength(s.pic, 0, open.data); }
    BytesFillUp(Step(s, open), n - 5);
  }

  /** After some run an open capture of declared size `n` is at the mercy of the next chunk. */
  ghost predicate Overruns(r0: int, m0: int, n: nat, es: seq<Event>, e: Event) {
    && Legal(Opened(r0, m0), es)
    && var s := Run(Opened(r0, m0), es);
       s.capturing && s.frameSize == n && CanHappen(s, e) && !Fits(s, e)
  }

  /** SAFE EXACTLY WHEN. The guard of the snapshot branch accepts every declared size below the
      buffer's 10485760 bytes. Whatever the uninitialised fields hold, no run can overrun the
      buffer during a capture of declared size n if and only if n is at most 10401550; and a run
      that does needs only frames that parse as what they are. */
  lemma BufferSafeIffSizeLeavesOnePacket(r0: int, m0: int, n: nat)
    requires 0 < n < 10485760
    ensures (forall es, e :: !Overruns(r0, m0, n, es, e)) <==> n <= 10401550
    ensures n > 10401550 ==> exists es, e :: Overruns(r0, m0, n, es, e) && Genuine(Opened(r0, m0), es)
  {
    if n <= 10401550 {
      forall es, e
        ensures !Overruns(r0, m0, n, es, e)
      {
        if Overruns(r0, m0, n, es, e) {
          ExtentBound(r0, m0, es, e);
        }
      }
    } else {
      CaptureFillsUp(r0, m0, n);
      var e := ReadOk(Zeros(MAX_PACKET_LEN), SILENT_ANSWERS);
      assert Overruns(r0, m0, n, FillUp(n), e);
    }
  }

  // ---------------------------------------------------------------- the two counters

  /** What `rcvdSzie` still holds from before the current capture. */
  function Leftover(r0: int, s: Session): int {
    if Calls(s).handed == 0 then r0 else 0
  }

  /** `rcvdSzie` is ahead of the extent of the buffer by `c`, in 32-bit arithmetic. */
  predicate CountersAgree(s: Session, c: int) {
    s.received == if s.capturing then Wrap32(c + s.pos) else c
  }

  lemma WrapTwice(x: int, y: int)
    ensures Wrap32(Wrap32(x) + y) == Wrap32(x + y)
  {
    var m := 0x1_0000_0000;
    var a := x + 0x8000_0000;
    assert a == m * (a / m) + a % m;
    ModShift(a % m + y, a / m);
  }

  lemma ModShift(a: int, k: int)
    ensures (a + 0x1_0000_0000 * k) % 0x1_0000_0000 == a % 0x1_0000_0000
  {
  }

  lemma ChunkKeepsCounters(r0: int, s: Session, e: Event)
    requires |s.pic| == PIC_BUFFER_LEN && CanHappen(s, e) && Fits(s, e)
    requires s.capturing && e.ReadOk? && CountersAgree(s, Leftover(r0, s))
    ensures CountersAgree(Step(s, e), Leftover(r0, Step(s, e)))
  {
    hide TallyOf, Copied, Zeros, Wrap32;
    StepBalances(s, e);
    CopiedLength(s.pic, s.pos, e.data);
    WrapTwice(Leftover(r0, s) + s.pos, |e.data|);
  }

  lemma CommandKeepsCounters(r0: int, s: Session, e: Event)
    requires |s.pic| == PIC_BUFFER_LEN && CanHappen(s, e) && !s.capturing
    requires CountersAgree(s, Leftover(r0, s))
    ensures CountersAgree(Step(s, e), Leftover(r0, Step(s, e)))
  {
    hide TallyOf, Copied, Zeros, Wrap32, Login, Heartbeat;
    StepBalances(s, e);
    if e.ReadOk? && e.answers.headType != SNAP {
      hide Command;
      QuietCommand(s.(pendingReads := s.pendingReads - 1), e.data, e.answers);
    }
  }

  lemma StepKeepsCounters(r0: int, s: Session, e: Event)
    requires |s.pic| == PIC_BUFFER_LEN && CanHappen(s, e) && Fits(s, e) && CountersAgree(s, Leftover(r0, s))
    ensures CountersAgree(Step(s, e), Leftover(r0, Step(s, e)))
  {
    hide TallyOf, Command, Chunk;
    if !s.capturing {
      CommandKeepsCounters(r0, s, e);
    } else if e.ReadOk? {
      ChunkKeepsCounters(r0, s, e);
    } else {
      StepBalances(s, e);
    }
  }

  lemma {:induction false} RunKeepsCounters(r0: int, s: Session, es: seq<Event>)
    requires |s.pic| == PIC_BUFFER_LEN && Legal(s, es) && CountersAgree(s, Leftover(r0, s))
    ensures CountersAgree(Run(s, es), Leftover(r0, Run(s, es)))
    decreases |es|
  {
    hide Step, CountersAgree, Leftover;
    if es != [] {
      StepKeepsCounters(r0, s, es[0]);
      RunKeepsCounters(r0, Step(s, es[0]), es[1..]);
    }
  }

  lemma OpenedCounters(r0: int, m0: int)
    ensures var s := Opened(r0, m0);
            |s.pic| == PIC_BUFFER_LEN && CountersAgree(s, Leftover(r0, s))
  {
  }

  lemma WrapIsCongruent(x: int)
    ensures -0x8000_0000 <= Wrap32(x) < 0x8000_0000
    ensures (Wrap32(x) - x) % 0x1_0000_0000 == 0
  {
    var m, y := 0x1_0000_0000, x + 0x8000_0000;
    assert y == m * (y / m) + y % m;
    assert Wrap32(x) - x == 0 + m * -(y / m);
    ModShift(0, -(y / m));
  }

  /** TWO COUNTERS. In every run `rcvdSzie` equals what it held before the capture plus the extent
      of the buffer, as 32-bit integers do. That leftover is the uninitialised r0 until the first
      picture is complete and 0 ever after; so from then on the two counters are equal while a
      capture is open. */
  lemma TwoCounterAgreement(r0: int, m0: int, es: seq<Event>)
    requires Legal(Opened(r0, m0), es)
    ensures var t := Run(Opened(r0, m0), es);
            var c := if Calls(t).handed == 0 then r0 else 0;
            && (!t.capturing ==> t.received == c)
            && (t.capturing ==>
                  && -0x8000_0000 <= t.received < 0x8000_0000
                  && (t.received - (c + t.pos)) % 0x1_0000_0000 == 0
                  && (c == 0 ==> t.received == t.pos))
  {
    hide Legal, Run, Opened, TallyOf, Padded, Zeros, Handed, Pictures, After;
    OpenedCounters(r0, m0);
    RunKeepsCounters(r0, Opened(r0, m0), es);
    SessionRefinesAssembler(r0, m0, es);
    var t := Run(Opened(r0, m0), es);
    WrapIsCongruent(Leftover(r0, t) + t.pos);
  }
}
