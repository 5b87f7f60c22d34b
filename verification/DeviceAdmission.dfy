/**
 How a session puts its device to work: every call it makes for the device, over all runs.
 */
module DeviceAdmission {
  import opened Messages
  import opened Capture
  import opened CaptureAccounts
  import opened Decisions

  /** A device whose mission is over, or that is online, has a camera. */
  predicate Equipped(dev: Device) {
    Ended(dev) || dev.online ==> dev.camera.Camera?
  }

  /** A start is for a real mission and camera and is followed at once by the online mark and a
      mission update for the same two; no update is made without them. */
  predicate WellMadeAt(fx: seq<Effect>, i: nat)
    requires i < |fx|
  {
    match fx[i]
    case DeviceStarted(num, camera) =>
      && num != -1 && camera.Camera?
      && i + 2 < |fx| && fx[i + 1] == OnlineSet && fx[i + 2] == MissionUpdated(num, camera)
    case MissionUpdated(num, camera) => num != -1 && camera.Camera?
    case _ => true
  }

  ghost predicate WellMade(fx: seq<Effect>) {
    forall i :: 0 <= i < |fx| ==> WellMadeAt(fx, i)
  }

  lemma WellMadeAppend(a: seq<Effect>, b: seq<Effect>)
    requires WellMade(a) && WellMade(b)
    ensures WellMade(a + b)
  {
    forall i | 0 <= i < |a + b|
      ensures WellMadeAt(a + b, i)
    {
      if i < |a| {
        assert WellMadeAt(a, i);
      } else {
        assert WellMadeAt(b, i - |a|);
      }
    }
  }

  ghost predicate Sound(s: Session) {
    Equipped(s.dev) && WellMade(s.effects)
  }

  lemma DoIsSound(s: Session, fx: seq<Effect>)
    requires Sound(s) && WellMade(fx)
    ensures Sound(s.Do(fx))
  {
    WellMadeAppend(s.effects, fx);
  }

  lemma ReplyIsSound(s: Session, kind: nat, value: nat, frameLen: int)
    requires Sound(s)
    ensures Sound(s.Reply(kind, value, frameLen))
  {
    DoIsSound(s, [Replied(kind, value)]);
  }

  lemma AdmitIsSound(s: Session, camera: CameraRef, frameLen: int)
    requires Sound(s) && s.dev.missionNum != -1 && camera.Camera?
    ensures Sound(Admit(s, camera, frameLen))
  {
    var t := s.(dev := s.dev.(camera := camera, status := Ready, online := true));
    var fx := [DeviceStarted(s.dev.missionNum, camera), OnlineSet, MissionUpdated(s.dev.missionNum, camera)];
    DoIsSound(t, fx);
    ReplyIsSound(t.Do(fx), LOGIN_RESP, 1, frameLen);
  }

  lemma LateAdmissionIsSound(s: Session, a: Answers)
    requires Sound(s)
    ensures Sound(LateAdmission(s, a))
  {
    if a.missionNum != -1 && a.freeCamera != NoCamera {
      AdmitIsSound(s.(dev := s.dev.(missionNum := a.missionNum)), a.freeCamera, a.frameLen);
    }
  }

  lemma ReassignIsSound(s: Session, a: Answers)
    requires Sound(s) && MissionOver(s.dev.status) && a.missionNum != -1
    ensures Sound(Reassign(s, a))
  {
    var camera := if a.freeCamera == NoCamera then s.dev.camera else a.freeCamera;
    DoIsSound(s.(dev := s.dev.(missionNum := a.missionNum, camera := camera, status := Ready)),
              [Reassigned, MissionUpdated(a.missionNum, camera)]);
  }

  lemma CommandIsSound(s: Session, data: seq<byte>, a: Answers)
    requires Sound(s) && |data| <= |s.pic|
    ensures Sound(Command(s, data, a))
  {
    hide WellMade;
    if a.headType == LOGIN {
      ReplyIsSound(s, LOGIN_RESP, 0, a.frameLen);
      if a.missionNum != -1 && a.freeCamera != NoCamera {
        AdmitIsSound(s.(dev := s.dev.(missionNum := a.missionNum)), a.freeCamera, a.frameLen);
      }
    } else if a.headType == HEARTBEAT {
      LateAdmissionIsSound(s, a);
      if MissionOver(s.dev.status) && a.missionNum != -1 {
        ReassignIsSound(s, a);
        LateAdmissionIsSound(Reassign(s, a), a);
      }
    } else {
      QuietCommandIsSound(s, data, a);
    }
  }

  lemma QuietCommandIsSound(s: Session, data: seq<byte>, a: Answers)
    requires Sound(s) && |data| <= |s.pic|
    requires a.headType != LOGIN && a.headType != HEARTBEAT
    ensures Sound(Command(s, data, a))
  {
    hide Copied, Wrap32;
    if a.headType == ZOOM {
      DoIsSound(s, [ZoomRequested]);
      ReplyIsSound(s.Do([ZoomRequested]), RIO_RESP, 1, a.frameLen);
    } else if a.headType == ILLEGAL_RESULT {
      DoIsSound(s, [PresetReloaded]);
    } else if a.headType == SNAP {
      var t := s.(frameSize := a.frameSize);
      var u := if !DeclaresCapture(a.frameSize) then t
               else t.(pic := Copied(s.pic, 0, data), pos := |data|,
                       received := Wrap32(s.received + |data|), capturing := true);
      ReplyIsSound(u, SNAP_RESP, 0, a.frameLen);
    } else {
      ReplyIsSound(s, DEV_STATUS_RESP, 0, a.frameLen);
      ReplyIsSound(s, ILLEGAL_PART_POS_RESP, 0, a.frameLen);
    }
  }

  lemma ChunkIsSound(s: Session, data: seq<byte>, a: Answers)
    requires Sound(s) && s.pos + |data| <= |s.pic|
    ensures Sound(Chunk(s, data, a))
  {
    hide Copied, Wrap32, Zeros;
    var pic := Copied(s.pic, s.pos, data);
    assert |pic| == |s.pic| by { CopiedLength(s.pic, s.pos, data); }
    var x := HandedOver(pic[..s.pos + |data|]);
    DoIsSound(s, [x]);
    DoIsSound(s.Do([x]), [ResultStored]);
    assert s.Do([x]).effects + [] == s.Do([x]).effects;
  }

  lemma StepIsSound(s: Session, e: Event)
    requires |s.pic| == PIC_BUFFER_LEN && CanHappen(s, e) && Fits(s, e) && Sound(s)
    ensures Sound(Step(s, e))
  {
    hide WellMade, Chunk, Command;
    match e
    case ReadOk(data, a) =>
      var t := s.(pendingReads := s.pendingReads - 1);
      if s.capturing { ChunkIsSound(t, data, a); } else { CommandIsSound(t, data, a); }
    case ReadFailed =>
      StopIsSound(s.(pendingReads := s.pendingReads - 1));
    case WriteFailed =>
      StopIsSound(s.(pendingWrites := s.pendingWrites - 1));
    case WriteOk =>
    case DeviceReports(_) =>
  }

  lemma StopIsSound(s: Session)
    requires Sound(s)
    ensures Sound(s.Do([DeviceStopped])) && Sound(s.Do([DeviceStopped]).TearDown())
  {
    DoIsSound(s, [DeviceStopped]);
    DoIsSound(s.Do([DeviceStopped]), [TornDown]);
  }

  lemma {:induction false} RunIsSound(s: Session, es: seq<Event>)
    requires |s.pic| == PIC_BUFFER_LEN && Legal(s, es) && Sound(s)
    ensures Sound(Run(s, es))
    decreases |es|
  {
    hide WellMade, Step;
    if es != [] {
      StepIsSound(s, es[0]);
      RunIsSound(Step(s, es[0]), es[1..]);
    }
  }

  /** ADMISSION. In every run, each start of the device is for a mission number other than -1 and
      a camera, and is followed by the online mark and the update of that mission with that
      camera; and a device whose mission is over always has a camera, so that a reassignment
      leaves one even when no other camera is free. */
  lemma EveryAdmissionIsWellMade(r0: int, m0: int, es: seq<Event>)
    requires Legal(Opened(r0, m0), es)
    ensures WellMade(Run(Opened(r0, m0), es).effects)
    ensures Equipped(Run(Opened(r0, m0), es).dev)
  {
    RunIsSound(Opened(r0, m0), es);
  }

  /** ONE PER HEARTBEAT. After any run a heartbeat reassigns the device exactly if its mission is
      over and it is matched, admits it late exactly if its mission is not over but it lacks a
      camera or a mission and is now given both, and never does both. */
  lemma ReassignedNotAdmitted(r0: int, m0: int, es: seq<Event>, e: Event)
    requires Legal(Opened(r0, m0), es)
    requires var s := Run(Opened(r0, m0), es);
             !s.capturing && CanHappen(s, e) && e.ReadOk? && e.answers.headType == HEARTBEAT
    ensures var s := Run(Opened(r0, m0), es);
            var a, c, d := e.answers, Calls(s), Calls(Step(s, e));
            var over := Ended(s.dev);
            && d.reassigns - c.reassigns == One(over && a.missionNum != -1)
            && d.starts - c.starts == One(!over && Admits(s.dev, a))
            && (d.reassigns - c.reassigns) + (d.starts - c.starts) <= 1
  {
    var s := Run(Opened(r0, m0), es);
    RunIsSound(Opened(r0, m0), es);
    HeartbeatCalls(s.(pendingReads := s.pendingReads - 1), e.answers);
  }

  lemma HeartbeatCalls(s: Session, a: Answers)
    requires Equipped(s.dev)
    ensures var over, c, d := Ended(s.dev), Calls(s), Calls(Heartbeat(s, a));
            && d.reassigns == c.reassigns + One(over && a.missionNum != -1)
            && d.starts == c.starts + One(!over && Admits(s.dev, a))
  {
    hide TallyOf;
    if !MissionOver(s.dev.status) {
      LateAdmissionCalls(s, a);
    } else if a.missionNum != -1 {
      ReassignCalls(s, a);
      LateAdmissionCalls(Reassign(s, a), a);
    }
  }
}
