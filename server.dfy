/** The server's shared state (the module globals of `webstream_linux.py`) and
    the operations that act on it: starting the camera, the capture loop, and
    the IA toggle of `/toggle_ia`. */
module Server {
  import opened Wrappers
  import opened Text
  import opened Config
  import opened Frames
  import opened Overlay
  import opened Slot
  import opened Camera
  import opened Capture

  /** How many reads the capture loop makes: none when the restart flag is already
      set, otherwise `rounds`. */
  function Rounds(flag: bool, rounds: nat): nat
  {
    if flag then 0 else rounds
  }

  /** Lines 127-128 and 177-178: release the device when there is one and it
      reports itself open. */
  method ReleaseIfOpen(c: VideoCapture?)
    modifies c
    ensures c != null ==> ReleasedIfOpen(c, old(c.released), old(c.queries), old(c.grabs))
  {
    if c != null {
      var isOpen := c.IsOpened();
      if isOpen {
        c.Release();
      }
    }
  }

  /** After one `isOpened()` query, and a release when it answered open. */
  ghost predicate ReleasedIfOpen(c: VideoCapture, wasReleased: bool, queries: nat, grabs: nat)
    reads c
  {
    && c.released == (wasReleased || Answer(c.hw, queries))
    && c.queries == queries + 1 && c.grabs == grabs
  }

  /** The reply of the IA toggle: `IA <status> com sucesso.`, whose status word
      is `ativada` exactly when the overlay is on and `desativada` exactly when
      it is off. */
  function ToggleMessage(enabled: bool): (m: string)
    ensures |m| >= 16 && m[..3] == "IA " && m[|m| - 13..] == " com sucesso."
    ensures m[3..|m| - 13] == "ativada" <==> enabled
    ensures m[3..|m| - 13] == "desativada" <==> !enabled
  {
    "IA " + (if enabled then "ativada" else "desativada") + " com sucesso."
  }

  /** The message tells the two states apart. */
  lemma ToggleMessageDistinct()
    ensures ToggleMessage(true) != ToggleMessage(false)
  {
    assert ToggleMessage(true)[4] != ToggleMessage(false)[4];
  }

  class Server {
    /** `cap`: `None` until the camera is first started. */
    var cap: VideoCapture?
    /** `restart_flag`, written by another thread. */
    var restartFlag: bool
    /** `IA_ENABLED`. */
    var iaEnabled: bool
    /** `segmentation_model is not None`, fixed once the model has been loaded. */
    const modelLoaded: bool
    /** `CONFIG`. */
    const settings: Settings
    /** `current_frame`. */
    const slot: FrameSlot

    ghost predicate Valid()
      reads this, settings, slot, slot.Repr
    {
      && slot.Valid()
      && HasCameraKeys(settings.entries)
      && settings as object != slot
      && settings !in slot.Repr && this !in slot.Repr
      && (cap != null ==> cap !in slot.Repr)
    }

    /** The state at start-up, after `load_config()` and `load_segmentation_model()`. */
    constructor (file: ConfigFile, modelLoaded: bool)
      ensures Valid() && fresh(slot) && fresh(slot.Repr) && fresh(settings)
      ensures cap == null && !restartFlag && iaEnabled
      ensures this.modelLoaded == modelLoaded
      ensures settings.entries == Loaded(file) && slot.history == []
    {
      var s := new Settings();
      s.Load(file);
      CompleteHasCameraKeys(s.entries);
      settings := s;
      slot := new FrameSlot();
      this.modelLoaded := modelLoaded;
      cap := null;
      restartFlag := false;
      iaEnabled := true;
    }

    /** `start_camera(index)`: release the previous device if it is open, open the
        device `index` names, negotiate a codec, apply the configured size and rate,
        and report whether the device is open. */
    method StartCamera(index: Value, opener: string -> Hardware) returns (ok: bool)
      requires Valid()
      modifies this, cap
      ensures Valid()
      ensures cap != null && fresh(cap) && !cap.released
      ensures cap.device == DevicePath(PyStr(index)) && cap.hw == opener(cap.device)
      ensures cap.grabs == 0 && cap.queries == Attempts(cap.hw, 0) + 1
      ensures cap.trace == NegotiationCalls(cap.hw, 0, settings.entries[WidthKey], settings.entries[HeightKey], settings.entries[FpsKey])
      ensures ok == Answer(cap.hw, Attempts(cap.hw, 0))
      ensures ClosedFrom(cap.hw, 0, 4) ==> !ok
      ensures old(cap) != null ==> ReleasedIfOpen(old(cap), old(cap.released), old(cap.queries), old(cap.grabs))
      ensures restartFlag == old(restartFlag) && iaEnabled == old(iaEnabled)
    {
      ok := OpenDevice(DevicePath(PyStr(index)), opener);
    }

    /** The body of `start_camera` once the index has been turned into a path. */
    method OpenDevice(dev: string, opener: string -> Hardware) returns (ok: bool)
      requires Valid()
      modifies this, cap
      ensures Valid()
      ensures cap != null && fresh(cap) && !cap.released
      ensures cap.device == dev && cap.hw == opener(dev)
      ensures cap.grabs == 0 && cap.queries == Attempts(cap.hw, 0) + 1
      ensures cap.trace == NegotiationCalls(cap.hw, 0, settings.entries[WidthKey], settings.entries[HeightKey], settings.entries[FpsKey])
      ensures ok == Answer(cap.hw, Attempts(cap.hw, 0))
      ensures ClosedFrom(cap.hw, 0, 4) ==> !ok
      ensures old(cap) != null ==> ReleasedIfOpen(old(cap), old(cap.released), old(cap.queries), old(cap.grabs))
      ensures restartFlag == old(restartFlag) && iaEnabled == old(iaEnabled)
    {
      ReleaseIfOpen(cap);
      var device := new VideoCapture(dev, opener(dev));
      ok := Negotiate(device, settings.entries[WidthKey], settings.entries[HeightKey], settings.entries[FpsKey]);
      cap := device;
    }

    /** `capture_frames()`: start the configured camera, then read frames and publish
        each successful one, overlaid, until `restart_flag` is set — by another
        thread, before the check that follows read number `rounds` — and finally
        release the device if it is still open. When the camera does not start
        nothing is published and the device is left as it is. */
    method CaptureFrames(opener: string -> Hardware, predict: Grid -> Prediction, rounds: nat) returns (started: bool)
      requires Valid()
      requires WellFormed(opener(DevicePath(PyStr(settings.entries[IndexKey]))))
      modifies this, cap, slot
      ensures Valid()
      ensures cap != null && fresh(cap)
      ensures cap.device == DevicePath(PyStr(settings.entries[IndexKey])) && cap.hw == opener(cap.device)
      ensures started == Answer(cap.hw, Attempts(cap.hw, 0))
      ensures !started ==> slot.history == old(slot.history) && !cap.released && restartFlag == old(restartFlag)
      ensures started ==> restartFlag && cap.grabs == Rounds(old(restartFlag), rounds)
      ensures started ==>
        slot.history == old(slot.history) + Published(Reads(cap.hw, 0, Rounds(old(restartFlag), rounds)), iaEnabled, modelLoaded, predict)
      ensures started ==> cap.released == Answer(cap.hw, Attempts(cap.hw, 0) + 1)
      ensures iaEnabled == old(iaEnabled)
    {
      started := StartCamera(settings.entries[IndexKey], opener);
      if !started {
        return;
      }
      ghost var h0 := slot.history;
      CaptureLoop(cap, slot, iaEnabled, modelLoaded, predict, Rounds(restartFlag, rounds));
      restartFlag := true;  // the write that ends the loop
      CapturedIsPublished(h0, cap.hw, 0, Rounds(old(restartFlag), rounds), iaEnabled, modelLoaded, predict);
      ReleaseIfOpen(cap);
    }

    /** `toggle_ia()`: flips the overlay switch and reports the new state. */
    method ToggleIa() returns (message: string)
      requires Valid()
      modifies this
      ensures Valid()
      ensures iaEnabled == !old(iaEnabled)
      ensures message == ToggleMessage(iaEnabled)
      ensures cap == old(cap) && restartFlag == old(restartFlag)
    {
      iaEnabled := !iaEnabled;
      message := ToggleMessage(iaEnabled);
    }
  }
}
