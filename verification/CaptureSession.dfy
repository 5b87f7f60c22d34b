/** The class `CCaptureDevSession`: fields updated in place, and its completion handlers. */
module CaptureSessions {
  import opened Messages
  import C = Capture
  import D = Decisions

  class CaptureSession {
    // The socket: operations outstanding.
    var pendingReads: nat
    var pendingWrites: nat

    const picData: array<byte>
    /** `curPicDataPos`, as an offset into `picData`. */
    var curPicDataPos: nat
    var recvCapture: bool
    var rcvdSize: int
    /** `res.frameSize`. */
    var frameSize: nat
    var freeThis: bool
    var capDev: C.Device

    // Every call made on the world around the session, in order.
    var effects: seq<C.Effect>

    ghost function View(): C.Session
      reads this, picData
    {
      C.Session(pendingReads, pendingWrites, recvCapture, curPicDataPos, picData[..], frameSize, rcvdSize,
                freeThis, capDev, effects)
    }

    /** `r0` and `m0` are what the memory of the uninitialised members `rcvdSzie` and
        `capDev.missionNum` holds; `res.frameSize` is set before it is first read. */
    constructor (r0: int, m0: int)
      ensures View().ArmRead() == C.Opened(r0, m0)
      ensures fresh(picData)
    {
      pendingReads, pendingWrites := 0, 0;
      picData := new byte[C.PIC_BUFFER_LEN];
      curPicDataPos, recvCapture, rcvdSize, frameSize := 0, false, r0, 0;
      freeThis := true;
      capDev := C.Device(m0, C.Ready, C.NoCamera, false);
      effects := [];
      new;
      ClearPicture();
    }

    /** `memset(picData, 0, ...)` */
    method ClearPicture()
      modifies picData
      ensures picData[..] == C.Zeros(picData.Length)
    {
      forall i | 0 <= i < picData.Length {
        picData[i] := 0;
      }
    }

    /** `memcpy(curPicDataPos, data_, ...)`, and the position moved behind the copy. */
    method CopyPacket(data: seq<byte>)
      requires curPicDataPos + |data| <= picData.Length
      modifies this`curPicDataPos, picData
      ensures picData[..] == C.Copied(old(picData[..]), old(curPicDataPos), data)
      ensures curPicDataPos == old(curPicDataPos) + |data|
    {
      forall i | 0 <= i < |data| {
        picData[curPicDataPos + i] := data[i];
      }
      curPicDataPos := curPicDataPos + |data|;
    }

    method Start()
      modifies this`pendingReads
      ensures pendingReads == old(pendingReads) + 1
    {
      pendingReads := pendingReads + 1;
    }

    method Call(e: C.Effect)
      modifies this`effects
      ensures effects == old(effects) + [e]
    {
      effects := effects + [e];
    }

    method Reply(kind: nat, value: nat, frameLen: int)
      modifies this`pendingWrites, this`effects
      ensures View() == old(View()).Reply(kind, value, frameLen)
    {
      if frameLen > 0 {
        pendingWrites := pendingWrites + 1;
        Call(C.Replied(kind, value));
      }
    }

    /** The picture is complete: it is handed over, stored if there is a mission, and erased. */
    method CompletePicture(a: C.Answers)
      requires curPicDataPos <= picData.Length
      modifies this, picData
      ensures View() == C.Complete(old(View()), a)
      ensures capDev == old(capDev).(missionNum := a.missionNum) && !recvCapture
    {
      Call(C.HandedOver(picData[..curPicDataPos]));
      frameSize := a.picFrameSize;
      capDev := capDev.(missionNum := a.missionNum);
      if a.missionFound {
        Call(C.ResultStored);
      }
      ClearPicture();
      recvCapture := false;
      rcvdSize := 0;
    }

    /** A raw chunk of the picture being captured. */
    method HandleChunk(data: seq<byte>, a: C.Answers)
      requires curPicDataPos + |data| <= picData.Length
      modifies this, picData
      ensures View() == C.Chunk(old(View()), data, a)
    {
      hide C.Copied, C.Zeros, C.Complete;
      rcvdSize := C.Wrap32(rcvdSize + |data|);
      CopyPacket(data);
      if curPicDataPos > frameSize {
        CompletePicture(a);
      }
      Start();
    }

    /** The common end of both admissions. */
    method AdmitDevice(camera: C.CameraRef, frameLen: int)
      modifies this
      ensures View() == C.Admit(old(View()), camera, frameLen)
    {
      capDev := capDev.(camera := camera);
      capDev := capDev.(status := C.Ready);
      Call(C.DeviceStarted(capDev.missionNum, capDev.camera));
      capDev := capDev.(online := true);
      Call(C.OnlineSet);
      Call(C.MissionUpdated(capDev.missionNum, capDev.camera));
      assert effects == old(effects)
        + [C.DeviceStarted(capDev.missionNum, camera), C.OnlineSet, C.MissionUpdated(capDev.missionNum, camera)];
      Reply(C.LOGIN_RESP, 1, frameLen);
    }

    method HandleLogin(a: C.Answers)
      requires a.headType == C.LOGIN
      modifies this
      ensures View() == C.Login(old(View()), a)
      ensures capDev == D.DeviceAfterFrame(old(capDev), a)
      ensures effects == old(effects) + D.FrameCalls(old(capDev), a)
    {
      D.LoginOutcome(View(), a);
      hide D.DeviceAfterFrame, D.FrameCalls;
      if !a.numberOk {
        Reply(C.LOGIN_RESP, 0, a.frameLen);
        return;
      }
      capDev := capDev.(missionNum := a.missionNum);
      if capDev.missionNum != -1 {
        if a.missionFound {
          if a.freeCamera != C.NoCamera {
            AdmitDevice(a.freeCamera, a.frameLen);
          }
        }
      }
      Start();
    }

    /** A device whose mission is over is given its next one, and another camera if one is free. */
    method ReassignDevice(a: C.Answers)
      modifies this
      ensures View() == C.Reassign(old(View()), a)
    {
      capDev := capDev.(missionNum := a.missionNum);
      Call(C.Reassigned);
      if a.freeCamera != C.NoCamera {
        capDev := capDev.(camera := a.freeCamera);
      }
      capDev := capDev.(status := C.Ready);
      Call(C.MissionUpdated(capDev.missionNum, capDev.camera));
      assert effects == old(effects) + [C.Reassigned, C.MissionUpdated(capDev.missionNum, capDev.camera)];
    }

    /** A device without camera or mission asks for both. */
    method AdmitLate(a: C.Answers)
      modifies this
      ensures View() == C.LateAdmission(old(View()), a)
    {
      if capDev.camera == C.NoCamera || capDev.missionNum == -1 {
        capDev := capDev.(missionNum := a.missionNum);
        if capDev.missionNum != -1 {
          if a.freeCamera != C.NoCamera {
            AdmitDevice(a.freeCamera, a.frameLen);
          }
        }
      }
    }

    method HandleHeartbeat(a: C.Answers)
      requires a.headType == C.HEARTBEAT
      requires C.AsksForWork(capDev) ==> a.missionNum == -1 || a.missionFound
      modifies this
      ensures View() == C.Heartbeat(old(View()), a)
      ensures capDev == D.DeviceAfterFrame(old(capDev), a)
      ensures effects == old(effects) + D.FrameCalls(old(capDev), a)
    {
      hide C.Reassign, C.LateAdmission, D.DeviceAfterFrame, D.FrameCalls;
      D.HeartbeatOutcome(View(), a);
      if capDev.status == C.Completed || capDev.status == C.Failed {
        if a.missionNum == -1 {
          capDev := capDev.(missionNum := a.missionNum);
          Start();
          return;
        }
        ReassignDevice(a);
      }
      AdmitLate(a);
      Start();
    }

    method HandleSnapshot(data: seq<byte>, a: C.Answers)
      requires |data| <= picData.Length
      modifies this, picData
      ensures View() == C.Snapshot(old(View()), data, a)
      ensures recvCapture == (old(recvCapture) || 0 < a.frameSize < 10485760) && frameSize == a.frameSize
    {
      hide C.Copied;
      frameSize := a.frameSize;
      if frameSize > 0 && frameSize < C.PIC_BUFFER_LEN {
        curPicDataPos := 0;
        CopyPacket(data);
        rcvdSize := C.Wrap32(rcvdSize + |data|);
        recvCapture := true;
      }
      Reply(C.SNAP_RESP, 0, a.frameLen);
      Start();
    }

    method HandleCommand(data: seq<byte>, a: C.Answers)
      requires |data| <= picData.Length
      requires a.headType == C.HEARTBEAT && C.AsksForWork(capDev) ==> a.missionNum == -1 || a.missionFound
      modifies this, picData
      ensures View() == C.Command(old(View()), data, a)
    {
      hide C.Login, C.Heartbeat, C.Snapshot;
      if a.headType == C.LOGIN {
        HandleLogin(a);
      } else if a.headType == C.HEARTBEAT {
        HandleHeartbeat(a);
      } else if a.headType == C.SNAP {
        HandleSnapshot(data, a);
      } else {
        if a.headType == C.ZOOM {
          Call(C.ZoomRequested);
          Reply(C.RIO_RESP, 1, a.frameLen);
        } else if a.headType == C.ILLEGAL_RESULT {
          Call(C.PresetReloaded);
        } else if a.headType == C.DEVICE_STATUS {
          Reply(C.DEV_STATUS_RESP, 0, a.frameLen);
        } else if a.headType == C.ILLEGAL_POSITION {
          Reply(C.ILLEGAL_PART_POS_RESP, 0, a.frameLen);
        }
        Start();
      }
    }

    method TearDown()
      modifies this`freeThis, this`effects
      ensures View() == old(View()).TearDown()
    {
      if freeThis {
        freeThis := false;
        Call(C.TornDown);
      }
    }

    /** Completion of a read: `data` are the bytes it brought. */
    method HandleRead(error: bool, data: seq<byte>, a: C.Answers)
      requires picData.Length == C.PIC_BUFFER_LEN
      requires var e := if error then C.ReadFailed else C.ReadOk(data, a);
               C.CanHappen(View(), e) && C.Fits(View(), e) && C.MissionKnown(View(), e)
      modifies this, picData
      ensures View() == C.Step(old(View()), if error then C.ReadFailed else C.ReadOk(data, a))
    {
      hide C.Chunk, C.Command;
      pendingReads := pendingReads - 1;
      if !error {
        if recvCapture {
          HandleChunk(data, a);
        } else {
          HandleCommand(data, a);
        }
      } else {
        if freeThis {
          Call(C.DeviceStopped);
          TearDown();
        }
      }
    }

    /** Completion of a write: success arms another read. */
    method HandleWrite(error: bool)
      requires picData.Length == C.PIC_BUFFER_LEN
      requires C.CanHappen(View(), if error then C.WriteFailed else C.WriteOk)
      modifies this
      ensures View() == C.Step(old(View()), if error then C.WriteFailed else C.WriteOk)
    {
      pendingWrites := pendingWrites - 1;
      if !error {
        Start();
      } else {
        Call(C.DeviceStopped);
        TearDown();
      }
    }
  }
}
