/**
 What a frame means for the device and for the sender, as a table over the frame's type and the
 answers it gets. The table speaks of frame and reply types by their numbers on the wire and of
 none of the handlers; `FrameOutcome` shows that the session does what it says.
 */
module Decisions {
  import opened Messages
  import opened Capture

  /** What a login or heartbeat does to the device: nothing; it only gets a new mission number; it
      is put to work on a mission and a camera; or its next mission begins on `camera`. */
  datatype Decision = KeptAsIs | OnlyRematched | PutToWork | GivenNext(camera: CameraRef)

  /** The mission of the device has ended. */
  predicate Ended(d: Device) {
    d.status.Completed? || d.status.Failed?
  }

  /** The device has no camera or no mission. */
  predicate Unassigned(d: Device) {
    d.camera.NoCamera? || d.missionNum == -1
  }

  function Decide(d: Device, a: Answers): Decision {
    var camera := a.freeCamera.Camera?;
    if a.headType == 1 then
      if !a.numberOk then KeptAsIs
      else if a.missionNum != -1 && a.missionFound && camera then PutToWork
      else OnlyRematched
    else if a.headType == 101 && (Ended(d) || Unassigned(d)) then
      if a.missionNum == -1 then OnlyRematched
      else if Ended(d) then GivenNext(if camera then a.freeCamera else d.camera)
      else if camera then PutToWork
      else OnlyRematched
    else KeptAsIs
  }

  function DeviceAfterFrame(d: Device, a: Answers): Device {
    match Decide(d, a)
    case KeptAsIs => d
    case OnlyRematched => d.(missionNum := a.missionNum)
    case PutToWork => Device(a.missionNum, Ready, a.freeCamera, true)
    case GivenNext(camera) => Device(a.missionNum, Ready, camera, d.online)
  }

  /** The calls made for the device, in order. */
  function DeviceCalls(d: Device, a: Answers): seq<Effect> {
    match Decide(d, a)
    case PutToWork =>
      [DeviceStarted(a.missionNum, a.freeCamera), OnlineSet, MissionUpdated(a.missionNum, a.freeCamera)]
    case GivenNext(camera) => [Reassigned, MissionUpdated(a.missionNum, camera)]
    case _ => if a.headType == 7 then [ZoomRequested] else if a.headType == 9 then [PresetReloaded] else []
  }

  /** The reply a frame gets: none for most heartbeats and logins, else of the next higher type. */
  function AnswerTo(d: Device, a: Answers): seq<Effect> {
    if a.frameLen <= 0 then []
    else if Decide(d, a).PutToWork? then [Replied(2, 1)]
    else if a.headType == 1 && !a.numberOk then [Replied(2, 0)]
    else if a.headType == 7 then [Replied(8, 1)]
    else if a.headType in {11, 17, 21} then [Replied(a.headType + 1, 0)]
    else []
  }

  function FrameCalls(d: Device, a: Answers): seq<Effect> {
    DeviceCalls(d, a) + AnswerTo(d, a)
  }

  /** What every frame in command mode leaves behind: the device and the calls of the table, and
      a capture if it is a snapshot of acceptable size. */
  ghost predicate FrameDone(s: Session, a: Answers, t: Session) {
    && t.dev == DeviceAfterFrame(s.dev, a)
    && t.effects == s.effects + FrameCalls(s.dev, a)
    && t.freeThis == s.freeThis
    && (t.capturing <==> s.capturing || (a.headType == 11 && 0 < a.frameSize < 10485760))
    && t.frameSize == (if a.headType == 11 then a.frameSize else s.frameSize)
  }

  /** The picture buffer, the position in it and the byte counter are as they were. */
  ghost predicate BufferKept(s: Session, t: Session) {
    t.pic == s.pic && t.pos == s.pos && t.received == s.received
  }

  lemma LoginOutcome(s: Session, a: Answers)
    requires a.headType == 1
    ensures FrameDone(s, a, Login(s, a)) && BufferKept(s, Login(s, a))
  {
  }

  lemma HeartbeatOutcome(s: Session, a: Answers)
    requires a.headType == 101
    ensures FrameDone(s, a, Heartbeat(s, a)) && BufferKept(s, Heartbeat(s, a))
  {
    if Decide(s.dev, a) == KeptAsIs || Decide(s.dev, a) == OnlyRematched {
      assert FrameCalls(s.dev, a) == [] && s.effects + [] == s.effects;
    }
  }

  lemma SnapshotOutcome(s: Session, data: seq<byte>, a: Answers)
    requires |data| <= |s.pic| && a.headType == 11
    ensures FrameDone(s, a, Snapshot(s, data, a))
    ensures Snapshot(s, data, a).pos == if 0 < a.frameSize < 10485760 then |data| else s.pos
  {
    hide Copied, Wrap32;
    assert s.effects + [] == s.effects;
  }

  lemma OtherOutcome(s: Session, data: seq<byte>, a: Answers)
    requires |data| <= |s.pic| && a.headType !in {1, 11, 101}
    ensures FrameDone(s, a, Command(s, data, a)) && BufferKept(s, Command(s, data, a))
  {
    hide Login, Heartbeat, Snapshot;
    assert s.effects + [] == s.effects;
  }

  lemma FrameOutcome(s: Session, data: seq<byte>, a: Answers)
    requires |data| <= |s.pic|
    ensures FrameDone(s, a, Command(s, data, a))
    ensures a.headType != 11 ==> BufferKept(s, Command(s, data, a))
    ensures a.headType == 11 ==>
              Command(s, data, a).pos == if 0 < a.frameSize < 10485760 then |data| else s.pos
  {
    hide Login, Heartbeat, Snapshot, FrameDone, BufferKept;
    if a.headType == 1 {
      LoginOutcome(s, a);
    } else if a.headType == 101 {
      HeartbeatOutcome(s, a);
    } else if a.headType == 11 {
      SnapshotOutcome(s, data, a);
    } else {
      OtherOutcome(s, data, a);
    }
  }

  /** THE GUARD. In command mode a snapshot frame leaves the session capturing if and only if the
      size it declares is positive and below 10485760. */
  lemma CaptureOpensExactlyWhen(s: Session, e: Event)
    requires |s.pic| == PIC_BUFFER_LEN && CanHappen(s, e)
    requires !s.capturing && e.ReadOk? && e.answers.headType == 11
    ensures Step(s, e).capturing <==> 0 < e.answers.frameSize < 10485760
  {
    FrameOutcome(s.(pendingReads := s.pendingReads - 1), e.data, e.answers);
    hide Command, FrameCalls;
  }

  /** A heartbeat asks for a mission exactly if it does something to the device. */
  lemma HeartbeatAsksIffItActs(d: Device, a: Answers)
    requires a.headType == 101
    ensures AsksForWork(d) <==> Decide(d, a) != KeptAsIs
  {
  }
}
