/**
 Accounts kept over whole runs of a capture session: outstanding operations, teardown, captures
 and results, and the admission of devices.
 */
module CaptureAccounts {
  import opened Messages
  import opened Capture
  import opened Decisions

  /** How often each kind of call has been made. `replies` counts the replies of branches that
      also arm a read, `rejections` the replies to a malformed login, which do not. */
  datatype Tally = Tally(starts: nat, onlines: nat, updates: nat, reassigns: nat,
                         replies: nat, rejections: nat, handed: nat, stored: nat,
                         stops: nat, teardowns: nat)

  function Tick(t: Tally, x: Effect): Tally {
    match x
    case DeviceStarted(_, _) => t.(starts := t.starts + 1)
    case OnlineSet => t.(onlines := t.onlines + 1)
    case MissionUpdated(_, _) => t.(updates := t.updates + 1)
    case Reassigned => t.(reassigns := t.reassigns + 1)
    case Replied(k, v) =>
      if k == LOGIN_RESP && v == 0 then t.(rejections := t.rejections + 1) else t.(replies := t.replies + 1)
    case HandedOver(_) => t.(handed := t.handed + 1)
    case ResultStored => t.(stored := t.stored + 1)
    case DeviceStopped => t.(stops := t.stops + 1)
    case TornDown => t.(teardowns := t.teardowns + 1)
    case ZoomRequested => t
    case PresetReloaded => t
  }

  function TallyOf(fx: seq<Effect>): Tally {
    if fx == [] then Tally(0, 0, 0, 0, 0, 0, 0, 0, 0, 0)
    else Tick(TallyOf(fx[..|fx| - 1]), fx[|fx| - 1])
  }

  function Calls(s: Session): Tally {
    TallyOf(s.effects)
  }

  lemma TallyOne(fx: seq<Effect>, a: Effect)
    ensures TallyOf(fx + [a]) == Tick(TallyOf(fx), a)
  {
    assert (fx + [a])[..|fx|] == fx;
  }

  lemma DoOne(s: Session, a: Effect)
    ensures Calls(s.Do([a])) == Tick(Calls(s), a)
  {
    TallyOne(s.effects, a);
  }

  lemma DoTwo(s: Session, a: Effect, b: Effect)
    ensures Calls(s.Do([a, b])) == Tick(Tick(Calls(s), a), b)
  {
    TallyOne(s.effects, a);
    TallyOne(s.effects + [a], b);
    assert s.effects + [a] + [b] == s.effects + [a, b];
  }

  lemma DoThree(s: Session, a: Effect, b: Effect, c: Effect)
    ensures Calls(s.Do([a, b, c])) == Tick(Tick(Tick(Calls(s), a), b), c)
  {
    DoTwo(s, a, b);
    TallyOne(s.effects + [a, b], c);
    assert s.effects + [a, b] + [c] == s.effects + [a, b, c];
  }

  // ---------------------------------------------------------------- calls of each handler

  function One(b: bool): nat {
    if b then 1 else 0
  }

  lemma ReplyCalls(s: Session, kind: nat, value: nat, frameLen: int)
    ensures Calls(s.Reply(kind, value, frameLen))
         == if frameLen > 0 then Tick(Calls(s), Replied(kind, value)) else Calls(s)
  {
    hide TallyOf;
    DoOne(s, Replied(kind, value));
  }

  lemma AdmitCalls(s: Session, camera: CameraRef, frameLen: int)
    ensures var c := Calls(s);
            Calls(Admit(s, camera, frameLen))
            == c.(starts := c.starts + 1, onlines := c.onlines + 1, updates := c.updates + 1,
                  replies := c.replies + One(frameLen > 0))
  {
    hide TallyOf;
    var t := s.(dev := s.dev.(camera := camera, status := Ready, online := true));
    var a, b, d := DeviceStarted(s.dev.missionNum, camera), OnlineSet, MissionUpdated(s.dev.missionNum, camera);
    DoThree(t, a, b, d);
    ReplyCalls(t.Do([a, b, d]), LOGIN_RESP, 1, frameLen);
  }

  /** The late admission of a heartbeat goes through. */
  predicate Admits(dev: Device, a: Answers) {
    Unassigned(dev) && a.missionNum != -1 && a.freeCamera.Camera?
  }

  lemma LateAdmissionCalls(s: Session, a: Answers)
    ensures var c, admitted := Calls(s), One(Admits(s.dev, a));
            Calls(LateAdmission(s, a))
            == c.(starts := c.starts + admitted, onlines := c.onlines + admitted,
                  updates := c.updates + admitted,
                  replies := c.replies + (if Admits(s.dev, a) then One(a.frameLen > 0) else 0))
  {
    hide TallyOf, Admit;
    AdmitCalls(s.(dev := s.dev.(missionNum := a.missionNum)), a.freeCamera, a.frameLen);
  }

  lemma ReassignCalls(s: Session, a: Answers)
    ensures var c := Calls(s);
            Calls(Reassign(s, a)) == c.(reassigns := c.reassigns + 1, updates := c.updates + 1)
  {
    hide TallyOf;
    var camera := if a.freeCamera == NoCamera then s.dev.camera else a.freeCamera;
    DoTwo(s.(dev := s.dev.(missionNum := a.missionNum, camera := camera, status := Ready)),
          Reassigned, MissionUpdated(a.missionNum, camera));
  }

  lemma CompleteCalls(s: Session, a: Answers)
    requires s.pos <= |s.pic|
    ensures var c := Calls(s);
            Calls(Complete(s, a)) == c.(handed := c.handed + 1, stored := c.stored + One(a.missionFound))
  {
    hide TallyOf, Zeros;
    var x := HandedOver(s.pic[..s.pos]);
    DoOne(s, x);
    DoOne(s.Do([x]), ResultStored);
    assert s.Do([x]).effects + [] == s.Do([x]).effects;
  }

  // ---------------------------------------------------------------- what a handler is asked to do

  /** The read succeeded and its packet is dispatched as a frame. */
  predicate IsFrame(s: Session, e: Event) {
    !s.capturing && e.ReadOk?
  }

  predicate MalformedLogin(s: Session, e: Event) {
    IsFrame(s, e) && e.answers.headType == 1 && !e.answers.numberOk
  }

  /** The rejection of a malformed login is answered. */
  predicate Rejects(s: Session, e: Event) {
    MalformedLogin(s, e) && e.answers.frameLen > 0
  }

  /** A malformed login is rejected with a reply that has no positive length, so that the
      handler leaves neither a read nor a write behind. */
  predicate Deafens(s: Session, e: Event) {
    MalformedLogin(s, e) && e.answers.frameLen <= 0
  }

  /** A login or heartbeat puts the device to work: it gets a mission and a camera. */
  predicate GivesWork(dev: Device, a: Answers) {
    Decide(dev, a).PutToWork?
  }

  /** A heartbeat gives a device whose mission is over its next one. */
  predicate GivesNextMission(dev: Device, a: Answers) {
    Decide(dev, a).GivenNext?
  }

  /** A frame other than a malformed login gets a reply. */
  predicate GetsReply(dev: Device, a: Answers) {
    && a.frameLen > 0
    && (GivesWork(dev, a) || a.headType in {7, 11, 17, 21})
  }

  predicate Admission(s: Session, e: Event) {
    IsFrame(s, e) && GivesWork(s.dev, e.answers)
  }

  predicate Reassignment(s: Session, e: Event) {
    IsFrame(s, e) && GivesNextMission(s.dev, e.answers)
  }

  predicate Responds(s: Session, e: Event) {
    IsFrame(s, e) && GetsReply(s.dev, e.answers)
  }

  /** A snapshot frame declares an acceptable size. */
  predicate Accepts(s: Session, e: Event) {
    IsFrame(s, e) && e.answers.headType == 11 && 0 < e.answers.frameSize < 10485760
  }

  /** A read completes in capture mode and completes the picture. */
  predicate Completes(s: Session, e: Event) {
    s.capturing && e.ReadOk? && s.pos + |e.data| > s.frameSize
  }

  predicate Stores(s: Session, e: Event) {
    Completes(s, e) && e.answers.missionFound
  }

  predicate WriteDone(s: Session, e: Event) {
    e.WriteOk?
  }

  predicate ReadError(s: Session, e: Event) {
    e.ReadFailed?
  }

  predicate WriteError(s: Session, e: Event) {
    e.WriteFailed?
  }

  /** How many steps of a run satisfy `p` in the state in which they happen. */
  function Count(s: Session, es: seq<Event>, p: (Session, Event) -> bool): nat
    requires |s.pic| == PIC_BUFFER_LEN && Legal(s, es)
    decreases |es|
  {
    if es == [] then 0 else One(p(s, es[0])) + Count(Step(s, es[0]), es[1..], p)
  }

  // ---------------------------------------------------------------- one step

  /** What one step from `s` to `t` does to every account. */
  ghost predicate Balances(s: Session, e: Event, t: Session) {
    var c, d := Calls(s), Calls(t);
    // operations
    && t.pendingReads + One(MalformedLogin(s, e)) + One(ReadError(s, e)) == s.pendingReads + One(WriteDone(s, e))
    && t.pendingWrites + One(WriteDone(s, e)) + One(WriteError(s, e))
       == s.pendingWrites + One(Responds(s, e)) + One(Rejects(s, e))
    && d.replies == c.replies + One(Responds(s, e))
    && d.rejections == c.rejections + One(Rejects(s, e))
    // captures
    && d.handed == c.handed + One(Completes(s, e))
    && d.stored == c.stored + One(Stores(s, e))
    && One(t.capturing) + One(Completes(s, e)) == One(s.capturing) + One(Accepts(s, e))
    // admission
    && d.starts == c.starts + One(Admission(s, e))
    && d.onlines == c.onlines + One(Admission(s, e))
    && d.reassigns == c.reassigns + One(Reassignment(s, e))
    && d.updates == c.updates + One(Admission(s, e)) + One(Reassignment(s, e))
    // teardown
    && d.teardowns + One(t.freeThis) == c.teardowns + One(s.freeThis)
  }

  lemma ChunkBalances(s: Session, e: Event)
    requires |s.pic| == PIC_BUFFER_LEN && CanHappen(s, e) && Fits(s, e)
    requires s.capturing && e.ReadOk?
    ensures Balances(s, e, Step(s, e))
  {
    hide TallyOf, Copied, Zeros, Wrap32;
    var data := e.data;
    var u := s.(pendingReads := s.pendingReads - 1, received := Wrap32(s.received + |data|),
                pic := Copied(s.pic, s.pos, data), pos := s.pos + |data|);
    assert |u.pic| == |s.pic| by { CopiedLength(s.pic, s.pos, data); }
    CompleteCalls(u, e.answers);
  }

  lemma CopiedLength(buf: seq<byte>, at: nat, data: seq<byte>)
    requires at + |data| <= |buf|
    ensures |Copied(buf, at, data)| == |buf|
  {
  }

  lemma RejectionBalances(s: Session, e: Event)
    requires |s.pic| == PIC_BUFFER_LEN && CanHappen(s, e) && MalformedLogin(s, e)
    ensures Balances(s, e, Step(s, e))
  {
    hide TallyOf, LateAdmission, Snapshot, Heartbeat, Admit;
    ReplyCalls(s.(pendingReads := s.pendingReads - 1), LOGIN_RESP, 0, e.answers.frameLen);
  }

  lemma CommandBalances(s: Session, e: Event)
    requires |s.pic| == PIC_BUFFER_LEN && CanHappen(s, e) && IsFrame(s, e) && !MalformedLogin(s, e)
    ensures Balances(s, e, Step(s, e))
  {
    hide TallyOf, Command, GivesWork, GivesNextMission, GetsReply;
    CommandAccounts(s.(pendingReads := s.pendingReads - 1), e.data, e.answers);
  }

  lemma ErrorBalances(s: Session, e: Event)
    requires |s.pic| == PIC_BUFFER_LEN && CanHappen(s, e) && (e.ReadFailed? || e.WriteFailed?)
    ensures Balances(s, e, Step(s, e))
  {
    hide TallyOf;
    var t := if e.ReadFailed? then s.(pendingReads := s.pendingReads - 1)
             else s.(pendingWrites := s.pendingWrites - 1);
    DoOne(t, DeviceStopped);
    DoOne(t.Do([DeviceStopped]), TornDown);
  }

  lemma StepBalances(s: Session, e: Event)
    requires |s.pic| == PIC_BUFFER_LEN && CanHappen(s, e) && Fits(s, e)
    ensures Balances(s, e, Step(s, e))
  {
    hide TallyOf, Command, Chunk;
    match e
    case ReadOk(_, a) =>
      if s.capturing {
        ChunkBalances(s, e);
      } else if MalformedLogin(s, e) {
        RejectionBalances(s, e);
      } else {
        CommandBalances(s, e);
      }
    case ReadFailed => ErrorBalances(s, e);
    case WriteFailed => ErrorBalances(s, e);
    case WriteOk =>
    case DeviceReports(_) =>
  }

  /** `t` follows from `s` by a branch that arms a read: one more read, a write for each reply,
      and no picture, rejection or teardown. */
  ghost predicate Rearmed(s: Session, a: Answers, t: Session) {
    var c, work, next := Calls(s), One(GivesWork(s.dev, a)), One(GivesNextMission(s.dev, a));
    && t.pendingReads == s.pendingReads + 1
    && t.pendingWrites == s.pendingWrites + One(GetsReply(s.dev, a))
    && Calls(t) == c.(replies := c.replies + One(GetsReply(s.dev, a)),
                      starts := c.starts + work, onlines := c.onlines + work,
                      reassigns := c.reassigns + next, updates := c.updates + work + next)
    && t.freeThis == s.freeThis
  }

  lemma LoginAccounts(s: Session, a: Answers)
    requires a.headType == LOGIN && a.numberOk
    ensures Rearmed(s, a, Login(s, a)) && Login(s, a).capturing == s.capturing
  {
    AdmitCalls(s.(dev := s.dev.(missionNum := a.missionNum)), a.freeCamera, a.frameLen);
    hide TallyOf;
  }

  lemma HeartbeatAccounts(s: Session, a: Answers)
    requires a.headType == HEARTBEAT
    ensures Rearmed(s, a, Heartbeat(s, a)) && Heartbeat(s, a).capturing == s.capturing
  {
    hide TallyOf;
    if !MissionOver(s.dev.status) {
      LateAdmissionCalls(s, a);
    } else if a.missionNum != -1 {
      ReassignCalls(s, a);
      LateAdmissionCalls(Reassign(s, a), a);
    }
  }

  lemma SnapshotAccounts(s: Session, data: seq<byte>, a: Answers)
    requires |data| <= |s.pic| && a.headType == SNAP
    ensures Rearmed(s, a, Snapshot(s, data, a))
    ensures Snapshot(s, data, a).capturing == (s.capturing || DeclaresCapture(a.frameSize))
  {
    hide TallyOf;
    SnapshotCalls(s, data, a);
  }

  lemma SnapshotCalls(s: Session, data: seq<byte>, a: Answers)
    requires |data| <= |s.pic|
    ensures var c := Calls(s);
            Calls(Snapshot(s, data, a)) == c.(replies := c.replies + One(a.frameLen > 0))
  {
    hide TallyOf, Copied, Wrap32;
    var t := s.(frameSize := a.frameSize);
    var u := if !DeclaresCapture(a.frameSize) then t
             else t.(pic := Copied(s.pic, 0, data), pos := |data|,
                     received := Wrap32(s.received + |data|), capturing := true);
    ReplyCalls(u, SNAP_RESP, 0, a.frameLen);
  }

  lemma CommandAccounts(s: Session, data: seq<byte>, a: Answers)
    requires |data| <= |s.pic| && !s.capturing
    requires a.headType != LOGIN || a.numberOk
    ensures Rearmed(s, a, Command(s, data, a))
    ensures Command(s, data, a).capturing == (a.headType == SNAP && DeclaresCapture(a.frameSize))
  {
    hide TallyOf;
    if a.headType == LOGIN {
      LoginAccounts(s, a);
    } else if a.headType == HEARTBEAT {
      HeartbeatAccounts(s, a);
    } else if a.headType == SNAP {
      SnapshotAccounts(s, data, a);
    } else {
      QuietCommandAccounts(s, data, a);
    }
  }

  lemma QuietCommandAccounts(s: Session, data: seq<byte>, a: Answers)
    requires |data| <= |s.pic| && a.headType !in {LOGIN, HEARTBEAT, SNAP}
    ensures Rearmed(s, a, Command(s, data, a)) && Command(s, data, a).capturing == s.capturing
  {
    hide TallyOf;
    if a.headType == ZOOM {
      DoOne(s, ZoomRequested);
      ReplyCalls(s.Do([ZoomRequested]), RIO_RESP, 1, a.frameLen);
    } else if a.headType == ILLEGAL_RESULT {
      DoOne(s, PresetReloaded);
    } else if a.headType == DEVICE_STATUS {
      ReplyCalls(s, DEV_STATUS_RESP, 0, a.frameLen);
    } else if a.headType == ILLEGAL_POSITION {
      ReplyCalls(s, ILLEGAL_PART_POS_RESP, 0, a.frameLen);
    }
  }

  // ---------------------------------------------------------------- every run

  /** The accounts of a run from `s` to `t`: the sums of what its steps do. */
  ghost predicate RunBalanced(s: Session, es: seq<Event>, t: Session)
    requires |s.pic| == PIC_BUFFER_LEN && Legal(s, es)
  {
    var c, d := Calls(s), Calls(t);
    && t.pendingReads + Count(s, es, MalformedLogin) + Count(s, es, ReadError)
       == s.pendingReads + Count(s, es, WriteDone)
    && t.pendingWrites + Count(s, es, WriteDone) + Count(s, es, WriteError)
       == s.pendingWrites + Count(s, es, Responds) + Count(s, es, Rejects)
    && Count(s, es, MalformedLogin) == Count(s, es, Rejects) + Count(s, es, Deafens)
    && d.replies == c.replies + Count(s, es, Responds)
    && d.rejections == c.rejections + Count(s, es, Rejects)
    && d.handed == c.handed + Count(s, es, Completes)
    && d.stored == c.stored + Count(s, es, Stores)
    && One(t.capturing) + Count(s, es, Completes) == One(s.capturing) + Count(s, es, Accepts)
    && d.starts == c.starts + Count(s, es, Admission)
    && d.onlines == c.onlines + Count(s, es, Admission)
    && d.reassigns == c.reassigns + Count(s, es, Reassignment)
    && d.updates == c.updates + Count(s, es, Admission) + Count(s, es, Reassignment)
    && d.teardowns + One(t.freeThis) == c.teardowns + One(s.freeThis)
  }

  lemma {:induction false} RunBalances(s: Session, es: seq<Event>)
    requires |s.pic| == PIC_BUFFER_LEN && Legal(s, es)
    ensures RunBalanced(s, es, Run(s, es))
    decreases |es|
  {
    hide TallyOf, Step, IsFrame, GivesWork, GivesNextMission, GetsReply;
    if es != [] {
      StepBalances(s, es[0]);
      RunBalances(Step(s, es[0]), es[1..]);
    }
  }

  /** READS. At any point of any run the reads outstanding are one, plus the writes completed,
      minus the malformed logins, answered or not, minus the reads that failed. The `start` a
      reply's completion calls is what makes more than one. */
  lemma ReadsLaw(r0: int, m0: int, es: seq<Event>)
    requires Legal(Opened(r0, m0), es)
    ensures var s, t := Opened(r0, m0), Run(Opened(r0, m0), es);
            t.pendingReads
            == 1 + Count(s, es, WriteDone) - Count(s, es, MalformedLogin) - Count(s, es, ReadError)
  {
    RunBalances(Opened(r0, m0), es);
  }

  /** WRITES. At any point of any run the writes outstanding are the frames that got a reply,
      malformed logins included, minus the writes that completed or failed. */
  lemma WritesLaw(r0: int, m0: int, es: seq<Event>)
    requires Legal(Opened(r0, m0), es)
    ensures var s, t := Opened(r0, m0), Run(Opened(r0, m0), es);
            t.pendingWrites
            == Count(s, es, Responds) + Count(s, es, Rejects) - Count(s, es, WriteDone) - Count(s, es, WriteError)
  {
    RunBalances(Opened(r0, m0), es);
  }

  /** PENDING OPERATIONS. At any point of any run, outstanding reads plus outstanding writes are
      one, plus the replies issued by branches that also arm a read, minus the malformed logins
      that got no reply, minus the operations that failed. The replies issued are those asked
      for by the frames that came in. */
  lemma PendingOperationLaw(r0: int, m0: int, es: seq<Event>)
    requires Legal(Opened(r0, m0), es)
    ensures var s, t := Opened(r0, m0), Run(Opened(r0, m0), es);
            && Calls(t).replies == Count(s, es, Responds)
            && t.pendingReads + t.pendingWrites
               == 1 + Calls(t).replies - Count(s, es, Deafens) - Count(s, es, ReadError) - Count(s, es, WriteError)
  {
    RunBalances(Opened(r0, m0), es);
  }

  /** EXCLUSIVE EXACTLY WHEN. At the end of a run at most one read is outstanding if and only if
      the completed writes do not outnumber the malformed logins and failed reads. */
  lemma ExclusiveExactlyWhen(r0: int, m0: int, es: seq<Event>)
    requires Legal(Opened(r0, m0), es)
    ensures var s, t := Opened(r0, m0), Run(Opened(r0, m0), es);
            t.pendingReads <= 1
            <==> Count(s, es, WriteDone) <= Count(s, es, MalformedLogin) + Count(s, es, ReadError)
  {
    ReadsLaw(r0, m0, es);
  }

  lemma {:induction false} PrefixesAreLegal(s: Session, es: seq<Event>, k: nat)
    requires |s.pic| == PIC_BUFFER_LEN && Legal(s, es) && k <= |es|
    ensures Legal(s, es[..k])
    ensures Count(s, es[..k], WriteDone) <= Count(s, es, WriteDone)
    ensures Count(s, es, WriteDone) == 0 <==> WriteOk !in es
    decreases |es|
  {
    hide Step, CanHappen, Fits, MissionKnown;
    if k > 0 {
      PrefixesAreLegal(Step(s, es[0]), es[1..], k - 1);
      assert es[..k][1..] == es[1..][..k - 1];
    } else if es != [] {
      PrefixesAreLegal(Step(s, es[0]), es[1..], 0);
    }
  }

  /** ONE READ AT A TIME. In a run without malformed logins and failed reads there is never more
      than one read outstanding, at any point, if and only if no reply is ever written out. */
  lemma OneReadAtATimeIffNothingWritten(r0: int, m0: int, es: seq<Event>)
    requires Legal(Opened(r0, m0), es)
    requires Count(Opened(r0, m0), es, MalformedLogin) == 0 && Count(Opened(r0, m0), es, ReadError) == 0
    ensures forall k :: 0 <= k <= |es| ==> Legal(Opened(r0, m0), es[..k])
    ensures (forall k :: 0 <= k <= |es| ==> Run(Opened(r0, m0), es[..k]).pendingReads <= 1) <==> WriteOk !in es
  {
    var s := Opened(r0, m0);
    forall k | 0 <= k <= |es|
      ensures Legal(s, es[..k])
      ensures WriteOk !in es ==> Run(s, es[..k]).pendingReads <= 1
    {
      PrefixesAreLegal(s, es, k);
      ReadsLaw(r0, m0, es[..k]);
    }
    PrefixesAreLegal(s, es, |es|);
    ReadsLaw(r0, m0, es);
    assert es[..|es|] == es;
  }

  /** NEVER DEAF. A run without failed operations leaves nothing outstanding exactly if its
      unanswered malformed logins outnumber its replies by one; when every such login is
      answered, something is always outstanding. */
  lemma DeafExactlyWhen(r0: int, m0: int, es: seq<Event>)
    requires Legal(Opened(r0, m0), es)
    requires Count(Opened(r0, m0), es, ReadError) == 0 && Count(Opened(r0, m0), es, WriteError) == 0
    ensures var s, t := Opened(r0, m0), Run(Opened(r0, m0), es);
            && (t.pendingReads + t.pendingWrites == 0 <==> Count(s, es, Deafens) == 1 + Count(s, es, Responds))
            && (Count(s, es, Deafens) == 0 ==> t.pendingReads + t.pendingWrites > 0)
  {
    PendingOperationLaw(r0, m0, es);
  }

  /** DEAF FOR EVER. A session with nothing outstanding never runs a handler again: it hears no
      packet, sends nothing, and if it was not torn down before, it never will be. */
  lemma {:induction false} DeafForEver(s: Session, es: seq<Event>)
    requires |s.pic| == PIC_BUFFER_LEN && Legal(s, es) && s.pendingReads == s.pendingWrites == 0
    ensures forall i :: 0 <= i < |es| ==> es[i].DeviceReports?
    ensures Run(s, es).(dev := s.dev) == s
    decreases |es|
  {
    if es != [] {
      DeafForEver(Step(s, es[0]), es[1..]);
    }
  }

  /** CONSERVATION OF CAPTURES. Over any run the snapshot frames accepted are the pictures handed
      over, plus one if a capture is open; the results stored are the pictures handed over for
      which a mission was found. */
  lemma CaptureConservation(r0: int, m0: int, es: seq<Event>)
    requires Legal(Opened(r0, m0), es)
    ensures var s, t := Opened(r0, m0), Run(Opened(r0, m0), es);
            && Count(s, es, Accepts) == Calls(t).handed + One(t.capturing)
            && Calls(t).handed == Count(s, es, Completes)
            && Calls(t).stored == Count(s, es, Stores)
  {
    RunBalances(Opened(r0, m0), es);
  }

  /** No handler that finds a capture open issues a reply of any kind. */
  lemma NoReplyWhileCapturing(s: Session, e: Event)
    requires |s.pic| == PIC_BUFFER_LEN && CanHappen(s, e) && Fits(s, e) && s.capturing
    ensures var c, d := Calls(s), Calls(Step(s, e));
            d.replies + d.rejections == c.replies + c.rejections
    ensures Step(s, e).pendingWrites <= s.pendingWrites
  {
    StepBalances(s, e);
  }

  /** CONSERVATION OF ADMISSIONS. Over any run the device is started as often as it is set
      online, and that is as often as its mission is updated without a reassignment: once for
      each login or heartbeat that gave it a mission and a camera. */
  lemma AdmissionConservation(r0: int, m0: int, es: seq<Event>)
    requires Legal(Opened(r0, m0), es)
    ensures var s, c := Opened(r0, m0), Calls(Run(Opened(r0, m0), es));
            && c.starts == c.onlines == c.updates - c.reassigns == Count(s, es, Admission)
            && c.reassigns == Count(s, es, Reassignment)
  {
    RunBalances(Opened(r0, m0), es);
  }

  /** SINGLE TEARDOWN. Whatever fails in whatever order, the session is torn down at most once,
      and `freeThis` is set exactly until then. */
  lemma SingleTeardown(r0: int, m0: int, es: seq<Event>)
    requires Legal(Opened(r0, m0), es)
    ensures var t := Run(Opened(r0, m0), es);
            Calls(t).teardowns == if t.freeThis then 0 else 1
  {
    RunBalances(Opened(r0, m0), es);
  }

  /** DRAINING. Once every completion is an error, each one takes an operation away and arms
      none, so the operations outstanding run down to none; and a session that was still alive
      with something outstanding has then been torn down exactly once. */
  lemma {:induction false} ErrorsDrain(s: Session, es: seq<Event>)
    requires |s.pic| == PIC_BUFFER_LEN && Legal(s, es)
    requires forall i :: 0 <= i < |es| ==> es[i].ReadFailed? || es[i].WriteFailed?
    ensures var t := Run(s, es);
            && t.pendingReads + t.pendingWrites == s.pendingReads + s.pendingWrites - |es|
            && (s.freeThis && es != [] ==> !t.freeThis && Calls(t).teardowns == Calls(s).teardowns + 1)
            && (!s.freeThis ==> !t.freeThis && Calls(t).teardowns == Calls(s).teardowns)
    decreases |es|
  {
    hide TallyOf;
    if es != [] {
      StepBalances(s, es[0]);
      ErrorsDrain(Step(s, es[0]), es[1..]);
    }
  }

  /** `r` reads and then `w` writes fail. */
  function Failures(r: nat, w: nat): seq<Event> {
    if r > 0 then [ReadFailed] + Failures(r - 1, w)
    else if w > 0 then [WriteFailed] + Failures(r, w - 1)
    else []
  }

  /** In any state whatever is outstanding can fail, one operation after the other, until nothing
      is; the session has then been torn down, if anything was outstanding. */
  lemma {:induction false} EverythingMayFail(s: Session)
    requires |s.pic| == PIC_BUFFER_LEN
    ensures var es := Failures(s.pendingReads, s.pendingWrites);
            && Legal(s, es)
            && var t := Run(s, es);
               && t.pendingReads == t.pendingWrites == 0
               && (t.freeThis <==> s.freeThis && s.pendingReads + s.pendingWrites == 0)
    decreases s.pendingReads + s.pendingWrites
  {
    var es := Failures(s.pendingReads, s.pendingWrites);
    if es != [] {
      var t := Step(s, es[0]);
      assert es[1..] == Failures(t.pendingReads, t.pendingWrites);
      EverythingMayFail(t);
    }
  }

  function Oks(n: nat): seq<Event> {
    if n == 0 then [] else [WriteOk] + Oks(n - 1)
  }

  /** In any state all outstanding writes can complete, and each leaves one more read. */
  lemma {:induction false} EveryWriteMayComplete(s: Session)
    requires |s.pic| == PIC_BUFFER_LEN
    ensures Legal(s, Oks(s.pendingWrites))
    ensures Run(s, Oks(s.pendingWrites)) == s.(pendingReads := s.pendingReads + s.pendingWrites, pendingWrites := 0)
    decreases s.pendingWrites
  {
    if s.pendingWrites > 0 {
      assert Oks(s.pendingWrites)[1..] == Oks(s.pendingWrites - 1);
      EveryWriteMayComplete(Step(s, WriteOk));
    }
  }

  // ---------------------------------------------------------------- reads are not exclusive

  const SILENT_ANSWERS: Answers := Answers(0, true, -1, false, NoCamera, 0, 0, 0)

  /** A packet of five bytes: the integer `n`, lowest byte first, and the frame type. */
  function Packet(n: nat, frameType: byte): seq<byte> {
    var n1 := n / 256;
    var n2 := n1 / 256;
    var n3 := n2 / 256;
    [(n % 256) as byte, (n1 % 256) as byte, (n2 % 256) as byte, (n3 % 256) as byte, frameType]
  }

  /** `n` zoom requests in a row, each answered and the answer written. */
  function ZoomRounds(n: nat): seq<Event> {
    if n == 0 then []
    else
      [ReadOk(Packet(5, 7), SILENT_ANSWERS.(headType := ZOOM, frameLen := REPLY_LEN)), WriteOk] + ZoomRounds(n - 1)
  }

  /** A session does not read one packet at a time: both the handler and the completion of its
      reply arm a read, so after `n` answered requests n more reads are outstanding. */
  lemma {:induction false} ReadsPileUp(s: Session, n: nat)
    requires |s.pic| == PIC_BUFFER_LEN && !s.capturing && s.pendingReads > 0
    ensures Legal(s, ZoomRounds(n)) && Genuine(s, ZoomRounds(n))
    ensures Run(s, ZoomRounds(n)).pendingReads == s.pendingReads + n
    decreases n
  {
    if n > 0 {
      var es := ZoomRounds(n);
      var s1 := Step(s, es[0]);
      var s2 := Step(s1, es[1]);
      assert es[1..][1..] == ZoomRounds(n - 1);
      ReadsPileUp(s2, n - 1);
      assert Legal(s1, es[1..]) && Genuine(s1, es[1..]);
    }
  }
}
