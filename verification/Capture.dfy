/**
 `CCaptureDevSession` as a state machine: one step per completion handler.

 In command mode a completed read is dispatched on its frame type; an accepted snapshot frame
 (type 11) switches to capture mode, where every completed read is a raw chunk of a picture,
 until more than the declared number of bytes has arrived.
 */
module Capture {
  import opened Messages

  const MAX_PACKET_LEN: nat := 84210
  const PIC_BUFFER_LEN: nat := 1024 * 1024 * 10

  // ---------------------------------------------------------------- the world around a session

  /** `STATUS`, the mission status of a capture device. */
  datatype Status = Failed | Completed | Processing | Ready | Exit

  /** The camera a device has been given, if any. */
  datatype CameraRef = NoCamera | Camera(id: nat)

  datatype Device = Device(missionNum: int, status: Status, camera: CameraRef, online: bool)

  /** What the code called by one handler answers: `ParseFrameHead`, the check of the device
      number, `MissionMatch`, `MissionGet`, `getFreeSDC`, the frame size found by
      `ParseSnapResult` and by `ParseSnapResultPic`, and the length `PackageResponeFrame` gives. */
  datatype Answers = Answers(headType: int, numberOk: bool, missionNum: int, missionFound: bool,
                             freeCamera: CameraRef, frameSize: nat, picFrameSize: nat, frameLen: int)

  const LOGIN: int := 1
  const ZOOM: int := 7
  const ILLEGAL_RESULT: int := 9
  const SNAP: int := 11
  const DEVICE_STATUS: int := 17
  const ILLEGAL_POSITION: int := 21
  const HEARTBEAT: int := 101

  /** The length of every reply. */
  const REPLY_LEN: int := 6

  const LOGIN_RESP: nat := 2
  const RIO_RESP: nat := 8
  const SNAP_RESP: nat := 12
  const DEV_STATUS_RESP: nat := 18
  const ILLEGAL_PART_POS_RESP: nat := 22

  /** A call the session makes on the world around it. `Reassigned` marks the `getFreeSDC` call
      of a heartbeat that gives a finished device its next mission. */
  datatype Effect =
    | DeviceStarted(missionNum: int, camera: CameraRef)
    | OnlineSet
    | MissionUpdated(missionNum: int, camera: CameraRef)
    | Reassigned
    | DeviceStopped
    | ZoomRequested
    | PresetReloaded
    | Replied(kind: nat, value: nat)
    | HandedOver(picture: seq<byte>)
    | ResultStored
    | TornDown

  // ---------------------------------------------------------------- the session

  /** `pendingReads` and `pendingWrites` are the operations outstanding on the socket, `capturing` is
      `recvCaprure`, `pos` is `curPicDataPos - picData`, `pic` the picture buffer, `frameSize`
      is `res.frameSize` and `received` is `rcvdSzie`. */
  datatype Session = Session(
    pendingReads: nat, pendingWrites: nat,
    capturing: bool, pos: nat, pic: seq<byte>, frameSize: nat, received: int,
    freeThis: bool, dev: Device, effects: seq<Effect>)
  {
    /** `start`, and every other place that arms a read. */
    function ArmRead(): Session {
      this.(pendingReads := pendingReads + 1)
    }

    function Do(es: seq<Effect>): Session {
      this.(effects := effects + es)
    }

    /** Packs a reply and sends it if it has a positive length. */
    function Reply(kind: nat, value: nat, frameLen: int): Session {
      if frameLen > 0 then this.(pendingWrites := pendingWrites + 1).Do([Replied(kind, value)]) else this
    }

    function TearDown(): Session {
      if freeThis then this.(freeThis := false).Do([TornDown]) else this
    }
  }

  /** A completed operation, or the mission loop of the device reporting the end of a mission. */
  datatype Event =
    | ReadOk(data: seq<byte>, answers: Answers)
    | ReadFailed
    | WriteOk
    | WriteFailed
    | DeviceReports(status: Status)

  function Zeros(n: nat): seq<byte> {
    seq(n, _ => 0)
  }

  /** `memcpy` of `data` to offset `at`. */
  function Copied(buf: seq<byte>, at: nat, data: seq<byte>): seq<byte>
    requires at + |data| <= |buf|
  {
    buf[..at] + data + buf[at + |data|..]
  }

  /** Storing an integer in an `int32_t`. */
  function Wrap32(x: int): int {
    (x + 0x8000_0000) % 0x1_0000_0000 - 0x8000_0000
  }

  /** A session just constructed and started: `r0` and `m0` are what the uninitialised fields
      `rcvdSzie` and `capDev.missionNum` happen to hold. */
  function Opened(r0: int, m0: int): Session {
    Session(0, 0, false, 0, Zeros(PIC_BUFFER_LEN), 0, r0,
            true, Device(m0, Ready, NoCamera, false), []).ArmRead()
  }

  predicate DeclaresCapture(frameSize: nat) {
    0 < frameSize < PIC_BUFFER_LEN
  }

  /** The status a finished or failed mission leaves; a heartbeat then reassigns the device. */
  predicate MissionOver(st: Status) {
    st.Completed? || st.Failed?
  }

  /** What asio and the device can do next: an operation completes only while it is outstanding,
      a read brings 1 to 84210 bytes, and the mission loop acts only on a device with a camera. */
  predicate CanHappen(s: Session, e: Event) {
    match e
    case ReadOk(data, a) => s.pendingReads > 0 && 1 <= |data| <= MAX_PACKET_LEN
    case ReadFailed => s.pendingReads > 0
    case WriteOk => s.pendingWrites > 0
    case WriteFailed => s.pendingWrites > 0
    case DeviceReports(st) => s.dev.camera.Camera? && MissionOver(st)
  }

  /** The chunk stays inside the picture buffer (`memcpy` beyond it is undefined). */
  predicate Fits(s: Session, e: Event) {
    s.capturing && e.ReadOk? ==> s.pos + |e.data| <= PIC_BUFFER_LEN
  }

  /** A heartbeat asks for a mission or camera when the mission is over or one of them lacks. */
  predicate AsksForWork(dev: Device) {
    MissionOver(dev.status) || dev.camera == NoCamera || dev.missionNum == -1
  }

  /** A heartbeat that asks, from a matched device, finds its mission (the code dereferences it). */
  predicate MissionKnown(s: Session, e: Event) {
    !s.capturing && e.ReadOk? && e.answers.headType == HEARTBEAT && AsksForWork(s.dev)
    ==> e.answers.missionNum == -1 || e.answers.missionFound
  }

  // ---------------------------------------------------------------- the handlers

  /** A complete picture: handed over, stored if the device still has a mission, and erased. */
  function Complete(s: Session, a: Answers): Session
    requires s.pos <= |s.pic|
  {
    s.Do([HandedOver(s.pic[..s.pos])]).Do(if a.missionFound then [ResultStored] else [])
     .(frameSize := a.picFrameSize, dev := s.dev.(missionNum := a.missionNum),
       pic := Zeros(|s.pic|), capturing := false, received := 0)
  }

  function Chunk(s: Session, data: seq<byte>, a: Answers): Session
    requires s.pos + |data| <= |s.pic|
  {
    var t := s.(received := Wrap32(s.received + |data|),
                pic := Copied(s.pic, s.pos, data), pos := s.pos + |data|);
    (if t.pos > t.frameSize then Complete(t, a) else t).ArmRead()
  }

  /** A device that has got a mission and a camera goes to work and is told so. */
  function Admit(s: Session, camera: CameraRef, frameLen: int): Session {
    s.(dev := s.dev.(camera := camera, status := Ready, online := true))
     .Do([DeviceStarted(s.dev.missionNum, camera), OnlineSet, MissionUpdated(s.dev.missionNum, camera)])
     .Reply(LOGIN_RESP, 1, frameLen)
  }

  /** Login. A malformed device number is answered but no read is armed again. */
  function Login(s: Session, a: Answers): Session {
    if !a.numberOk then s.Reply(LOGIN_RESP, 0, a.frameLen)
    else
      var t := s.(dev := s.dev.(missionNum := a.missionNum));
      (if a.missionNum == -1 || !a.missionFound || a.freeCamera == NoCamera then t
       else Admit(t, a.freeCamera, a.frameLen)).ArmRead()
  }

  /** The first half of a heartbeat gives a device whose mission is over its next one. */
  function Reassign(s: Session, a: Answers): Session {
    var camera := if a.freeCamera == NoCamera then s.dev.camera else a.freeCamera;
    s.(dev := s.dev.(missionNum := a.missionNum, camera := camera, status := Ready))
     .Do([Reassigned, MissionUpdated(a.missionNum, camera)])
  }

  /** The second half admits a device that is still without camera or mission. */
  function LateAdmission(s: Session, a: Answers): Session {
    if s.dev.camera != NoCamera && s.dev.missionNum != -1 then s
    else
      var t := s.(dev := s.dev.(missionNum := a.missionNum));
      if a.missionNum == -1 || a.freeCamera == NoCamera then t
      else Admit(t, a.freeCamera, a.frameLen)
  }

  /** Heartbeat. Both halves see the same answers: `ReassignedNotAdmitted` shows that at most
      one of them asks for a camera. */
  function Heartbeat(s: Session, a: Answers): Session {
    (if !MissionOver(s.dev.status) then LateAdmission(s, a)
     else if a.missionNum == -1 then s.(dev := s.dev.(missionNum := -1))
     else LateAdmission(Reassign(s, a), a)).ArmRead()
  }

  /** Snapshot result: the packet opens a capture if its declared size is acceptable. */
  function Snapshot(s: Session, data: seq<byte>, a: Answers): Session
    requires |data| <= |s.pic|
  {
    var t := s.(frameSize := a.frameSize);
    var u := if !DeclaresCapture(a.frameSize) then t
             else t.(pic := Copied(s.pic, 0, data), pos := |data|,
                     received := Wrap32(s.received + |data|), capturing := true);
    u.Reply(SNAP_RESP, 0, a.frameLen).ArmRead()
  }

  function Command(s: Session, data: seq<byte>, a: Answers): Session
    requires |data| <= |s.pic|
  {
    if a.headType == LOGIN then Login(s, a)
    else if a.headType == HEARTBEAT then Heartbeat(s, a)
    else if a.headType == ZOOM then s.Do([ZoomRequested]).Reply(RIO_RESP, 1, a.frameLen).ArmRead()
    else if a.headType == ILLEGAL_RESULT then s.Do([PresetReloaded]).ArmRead()
    else if a.headType == SNAP then Snapshot(s, data, a)
    else if a.headType == DEVICE_STATUS then s.Reply(DEV_STATUS_RESP, 0, a.frameLen).ArmRead()
    else if a.headType == ILLEGAL_POSITION then s.Reply(ILLEGAL_PART_POS_RESP, 0, a.frameLen).ArmRead()
    else s.ArmRead()
  }

  /** One handler, run to its end. */
  function Step(s: Session, e: Event): (t: Session)
    requires CanHappen(s, e) && Fits(s, e) && |s.pic| == PIC_BUFFER_LEN
    ensures |t.pic| == PIC_BUFFER_LEN
  {
    match e
    case ReadOk(data, a) =>
      var t := s.(pendingReads := s.pendingReads - 1);
      if s.capturing then Chunk(t, data, a) else Command(t, data, a)
    case ReadFailed =>
      var t := s.(pendingReads := s.pendingReads - 1);
      if s.freeThis then t.Do([DeviceStopped]).TearDown() else t
    case WriteOk =>
      s.(pendingWrites := s.pendingWrites - 1).ArmRead()
    case WriteFailed =>
      s.(pendingWrites := s.pendingWrites - 1).Do([DeviceStopped]).TearDown()
    case DeviceReports(st) =>
      s.(dev := s.dev.(status := st))
  }

  // ---------------------------------------------------------------- runs

  /** A run in which no handler does what C++ leaves undefined. */
  predicate Legal(s: Session, es: seq<Event>)
    requires |s.pic| == PIC_BUFFER_LEN
    decreases |es|
  {
    es == [] ||
    (CanHappen(s, es[0]) && Fits(s, es[0]) && MissionKnown(s, es[0]) && Legal(Step(s, es[0]), es[1..]))
  }

  function Run(s: Session, es: seq<Event>): (t: Session)
    requires |s.pic| == PIC_BUFFER_LEN && Legal(s, es)
    ensures |t.pic| == PIC_BUFFER_LEN
    decreases |es|
  {
    if es == [] then s else Run(Step(s, es[0]), es[1..])
  }

  // ---------------------------------------------------------------- packets as they are parsed

  /** The four bytes an integer is read from, lowest first. */
  function LittleEndian(b: seq<byte>): nat
    requires |b| == 4
  {
    b[0] as nat + 256 * b[1] as nat + 65536 * b[2] as nat + 16777216 * b[3] as nat
  }

  /** The answers for a frame are those its bytes give: `ParseFrameHead` takes the type from the
      fifth byte, `ParseSnapResult` the size from the first four, and `PackageResponeFrame`
      packs a reply of six bytes. */
  predicate Parsed(data: seq<byte>, a: Answers) {
    && |data| >= 5
    && a.headType == data[4] as int
    && (a.headType == SNAP ==> a.frameSize == LittleEndian(data[..4]))
    && a.frameLen == REPLY_LEN
  }

  /** Every frame of a run is answered as its bytes say. */
  predicate Genuine(s: Session, es: seq<Event>)
    requires |s.pic| == PIC_BUFFER_LEN && Legal(s, es)
    decreases |es|
  {
    es == [] ||
    ((!s.capturing && es[0].ReadOk? ==> Parsed(es[0].data, es[0].answers)) && Genuine(Step(s, es[0]), es[1..]))
  }
}
