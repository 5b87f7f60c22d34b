/**
 A whole session against an observer that has no buffer, no counters and no handlers: it keeps
 the capture as collected so far, the device, the last size parsed, how far the last capture got,
 and whether the session is alive. Every call a session makes, in order, and the state of its device are shown to be the
 observer's, in every run; so laws about either are read off the events.
 */
module SessionObserver {
  import opened Messages
  import opened Capture
  import opened CaptureAccounts
  import opened Decisions
  import opened Reassembly

  datatype Observer = Observer(capture: Assembler, dev: Device, size: nat, extent: nat, alive: bool)

  /** The event is a read that completes the picture. */
  predicate Completed(o: Observer, e: Event) {
    o.capture.Open? && e.ReadOk? && |o.capture.bytes + e.data| > o.capture.declared
  }

  /** The event is a read that is taken as a frame. */
  predicate Framed(o: Observer, e: Event) {
    o.capture.Closed? && e.ReadOk?
  }

  function Watch(o: Observer, e: Event): Observer {
    Observer(
      Collect(o.capture, e),
      if Completed(o, e) then o.dev.(missionNum := e.answers.missionNum)
      else if Framed(o, e) then DeviceAfterFrame(o.dev, e.answers)
      else if e.DeviceReports? then o.dev.(status := e.status)
      else o.dev,
      if Completed(o, e) then e.answers.picFrameSize
      else if Framed(o, e) && e.answers.headType == 11 then e.answers.frameSize
      else o.size,
      if o.capture.Open? && e.ReadOk? then |o.capture.bytes + e.data|
      else if Collect(o.capture, e).Open? && e.ReadOk? then |e.data|
      else o.extent,
      o.alive && !e.ReadFailed? && !e.WriteFailed?)
  }

  /** The calls an event leads to. After a teardown a failed read is passed over, but a failed
      write still stops the device. */
  function CallsOn(o: Observer, e: Event): seq<Effect> {
    match e
    case ReadOk(data, a) =>
      if Framed(o, e) then FrameCalls(o.dev, a)
      else if Completed(o, e) then
        [HandedOver(o.capture.bytes + data)] + (if a.missionFound then [ResultStored] else [])
      else []
    case ReadFailed => if o.alive then [DeviceStopped, TornDown] else []
    case WriteFailed => [DeviceStopped] + (if o.alive then [TornDown] else [])
    case WriteOk => []
    case DeviceReports(_) => []
  }

  function After(o: Observer, es: seq<Event>): Observer
    decreases |es|
  {
    if es == [] then o else After(Watch(o, es[0]), es[1..])
  }

  function CallsOver(o: Observer, es: seq<Event>): seq<Effect>
    decreases |es|
  {
    if es == [] then [] else CallsOn(o, es[0]) + CallsOver(Watch(o, es[0]), es[1..])
  }

  /** A session just started; `m0` is what the uninitialised mission number holds. */
  function Started(m0: int): Observer {
    Observer(Closed, Device(m0, Ready, NoCamera, false), 0, 0, true)
  }

  // ---------------------------------------------------------------- refinement

  ghost predicate Shows(s: Session, o: Observer) {
    && Holds(s, o.capture)
    && s.dev == o.dev && s.frameSize == o.size && s.pos == o.extent && s.freeThis == o.alive
  }

  /** One event, apart from what it does to the buffer. */
  ghost predicate EventDone(s: Session, o: Observer, e: Event, t: Session) {
    && t.dev == Watch(o, e).dev && t.freeThis == Watch(o, e).alive
    && t.frameSize == Watch(o, e).size && t.pos == Watch(o, e).extent
    && t.effects == s.effects + CallsOn(o, e)
  }

  lemma ChunkDone(s: Session, o: Observer, e: Event)
    requires Shows(s, o) && o.capture.Open? && CanHappen(s, e) && Fits(s, e) && e.ReadOk?
    ensures EventDone(s, o, e, Step(s, e))
  {
    hide Wrap32;
    CopyExtends(o.capture.bytes, PIC_BUFFER_LEN, e.data);
    hide Copied, Padded, Zeros;
    assert s.effects + [] == s.effects;
  }

  lemma FrameEventDone(s: Session, o: Observer, e: Event)
    requires Shows(s, o) && Framed(o, e) && CanHappen(s, e)
    ensures EventDone(s, o, e, Step(s, e))
  {
    FrameOutcome(s.(pendingReads := s.pendingReads - 1), e.data, e.answers);
    hide Command, FrameCalls, DeviceAfterFrame;
  }

  lemma OtherEventDone(s: Session, o: Observer, e: Event)
    requires Shows(s, o) && CanHappen(s, e) && !e.ReadOk?
    ensures EventDone(s, o, e, Step(s, e))
  {
    hide Holds;
    assert s.effects + [] == s.effects;
  }

  lemma StepShown(s: Session, o: Observer, e: Event)
    requires Shows(s, o) && |s.pic| == PIC_BUFFER_LEN && CanHappen(s, e) && Fits(s, e)
    ensures Shows(Step(s, e), Watch(o, e))
    ensures Step(s, e).effects == s.effects + CallsOn(o, e)
  {
    hide Step, CanHappen, Fits, Holds, Collect, CallsOn;
    StepHolds(s, o.capture, e);
    if !e.ReadOk? {
      OtherEventDone(s, o, e);
    } else if o.capture.Open? {
      ChunkDone(s, o, e);
    } else {
      FrameEventDone(s, o, e);
    }
  }

  lemma {:induction false} RunShown(s: Session, o: Observer, es: seq<Event>)
    requires Shows(s, o) && |s.pic| == PIC_BUFFER_LEN && Legal(s, es)
    ensures Shows(Run(s, es), After(o, es))
    ensures Run(s, es).effects == s.effects + CallsOver(o, es)
    decreases |es|
  {
    hide Step, Shows, Watch, CallsOn;
    if es != [] {
      StepShown(s, o, es[0]);
      RunShown(Step(s, es[0]), Watch(o, es[0]), es[1..]);
    }
  }

  /** THE LOG. In every run the calls a session makes are exactly the observer's, in order; and its
      device, its capture and whether it is alive are the observer's too. */
  lemma SessionRefinesObserver(r0: int, m0: int, es: seq<Event>)
    requires Legal(Opened(r0, m0), es)
    ensures var t := Run(Opened(r0, m0), es);
            && t.effects == CallsOver(Started(m0), es)
            && Shows(t, After(Started(m0), es))
  {
    OpenedHolds(r0, m0);
    RunShown(Opened(r0, m0), Started(m0), es);
  }

  // ---------------------------------------------------------------- last answers

  /** What `value` says of the last event of a run that satisfies `p`, or `start` if none does. */
  function Latest<T>(o: Observer, es: seq<Event>, p: (Observer, Event) -> bool, value: Event -> T, start: T): T
    decreases |es|
  {
    if es == [] then start
    else Latest(Watch(o, es[0]), es[1..], p, value, if p(o, es[0]) then value(es[0]) else start)
  }

  /** The session asks which mission the device belongs to: on a well-formed login, on a heartbeat
      of a device whose mission is over or that lacks a camera or a mission, and when a picture is
      complete. */
  predicate AsksMission(o: Observer, e: Event) {
    || Completed(o, e)
    || (Framed(o, e) && e.answers.headType == 1 && e.answers.numberOk)
    || (Framed(o, e) && e.answers.headType == 101 && (Ended(o.dev) || Unassigned(o.dev)))
  }

  function MissionAnswer(e: Event): int {
    if e.ReadOk? then e.answers.missionNum else -1
  }

  /** A matched device is given a free camera. */
  predicate TakesCamera(o: Observer, e: Event) {
    && Framed(o, e) && AsksMission(o, e)
    && e.answers.missionNum != -1 && e.answers.freeCamera.Camera?
    && (e.answers.headType == 1 ==> e.answers.missionFound)
  }

  function CameraAnswer(e: Event): CameraRef {
    if e.ReadOk? then e.answers.freeCamera else NoCamera
  }

  predicate StartsWork(o: Observer, e: Event) {
    TakesCamera(o, e) && (e.answers.headType == 101 ==> !Ended(o.dev))
  }

  /** The mission status is set: by the start of work, by a next mission, or by the device. */
  predicate SetsStatus(o: Observer, e: Event) {
    || StartsWork(o, e)
    || (Framed(o, e) && e.answers.headType == 101 && Ended(o.dev) && e.answers.missionNum != -1)
    || e.DeviceReports?
  }

  function StatusSet(e: Event): Status {
    if e.DeviceReports? then e.status else Ready
  }

  /** The device after one event, field by field. */
  lemma FieldsAfter(o: Observer, e: Event)
    ensures var d, n := o.dev, Watch(o, e).dev;
            && n.missionNum == (if AsksMission(o, e) then MissionAnswer(e) else d.missionNum)
            && n.camera == (if TakesCamera(o, e) then CameraAnswer(e) else d.camera)
            && n.status == (if SetsStatus(o, e) then StatusSet(e) else d.status)
            && n.online == (d.online || StartsWork(o, e))
  {
  }

  lemma {:induction false} FieldsAreLatest(o: Observer, es: seq<Event>)
    ensures var d, n := o.dev, After(o, es).dev;
            && n.missionNum == Latest(o, es, AsksMission, MissionAnswer, d.missionNum)
            && n.camera == Latest(o, es, TakesCamera, CameraAnswer, d.camera)
            && n.status == Latest(o, es, SetsStatus, StatusSet, d.status)
            && n.online == Latest(o, es, StartsWork, _ => true, d.online)
    ensures After(o, es).alive <==> o.alive && ReadFailed !in es && WriteFailed !in es
    decreases |es|
  {
    hide AsksMission, TakesCamera, SetsStatus, StartsWork, StatusSet, MissionAnswer, CameraAnswer;
    if es != [] {
      FieldsAfter(o, es[0]);
      FieldsAreLatest(Watch(o, es[0]), es[1..]);
      hide Watch;
    }
  }

  /** LAST ANSWERS. After any run the device's mission number is the last answer the session got
      to the question for it, its camera the last one it was given, its status the last one set;
      it is online if and only if it was ever put to work. */
  lemma DeviceIsLastAnswers(r0: int, m0: int, es: seq<Event>)
    requires Legal(Opened(r0, m0), es)
    ensures var o, d := Started(m0), Run(Opened(r0, m0), es).dev;
            && d.missionNum == Latest(o, es, AsksMission, MissionAnswer, m0)
            && d.camera == Latest(o, es, TakesCamera, CameraAnswer, NoCamera)
            && d.status == Latest(o, es, SetsStatus, StatusSet, Ready)
            && d.online == Latest(o, es, StartsWork, _ => true, false)
  {
    SessionRefinesObserver(r0, m0, es);
    FieldsAreLatest(Started(m0), es);
  }

  /** TORN DOWN EXACTLY WHEN. After any run the session has been torn down if and only if one of
      its operations has failed. */
  lemma TornDownIffFailed(r0: int, m0: int, es: seq<Event>)
    requires Legal(Opened(r0, m0), es)
    ensures var t := Run(Opened(r0, m0), es);
            && (t.freeThis <==> ReadFailed !in es && WriteFailed !in es)
            && (TornDown in t.effects <==> !t.freeThis)
  {
    SessionRefinesObserver(r0, m0, es);
    FieldsAreLatest(Started(m0), es);
    SingleTeardown(r0, m0, es);
    TeardownIsCounted(Run(Opened(r0, m0), es).effects);
  }

  lemma {:induction false} TeardownIsCounted(fx: seq<Effect>)
    ensures TornDown in fx <==> TallyOf(fx).teardowns > 0
  {
    if fx != [] {
      TeardownIsCounted(fx[..|fx| - 1]);
      assert fx == fx[..|fx| - 1] + [fx[|fx| - 1]];
    }
  }
}
