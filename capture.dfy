/** What the capture loop of `capture_frames()` publishes in the frame slot: one
    turn per `cap.read()`, and nothing for a failed read. */
module Capture {
  import opened Wrappers
  import opened Frames
  import opened Overlay
  import opened Slot
  import opened Camera

  /** The images the capture loop publishes for the frames its reads return:
      nothing for a failed read, the overlaid image for a successful one. */
  ghost function Published(frames: seq<Option<Grid>>, enabled: bool, loaded: bool, predict: Grid -> Prediction): seq<Grid>
  {
    if frames == [] then []
    else
      var n := |frames| - 1;
      Published(frames[..n], enabled, loaded, predict) + Shown(frames[n], enabled, loaded, predict)
  }

  /** What one read publishes (a device only ever returns images, see `WellFormed`). */
  ghost function Shown(frame: Option<Grid>, enabled: bool, loaded: bool, predict: Grid -> Prediction): seq<Grid>
  {
    match frame
    case None => []
    case Some(g) => if IsImage(g) then [Annotated(g, enabled, loaded, predict)] else [g]
  }

  /** The frames of `n` reads on a device, from read number `from` on: the
      hardware's recorded frames, and failed reads once those run out. */
  function Reads(hw: Hardware, from: nat, n: nat): (frames: seq<Option<Grid>>)
    ensures |frames| == n
    ensures forall i :: 0 <= i < n ==> frames[i] == FrameAt(hw, from + i)
    ensures forall i :: 0 <= i < n && from + i < |hw.frames| ==> frames[i] == hw.frames[from + i]
    ensures forall i :: 0 <= i < n && from + i >= |hw.frames| ==> frames[i].None?
  {
    seq(n, i requires 0 <= i < n => FrameAt(hw, from + i))
  }

  lemma ReadsPrefix(hw: Hardware, from: nat, n: nat)
    ensures Reads(hw, from, n + 1) == Reads(hw, from, n) + [FrameAt(hw, from + n)]
  {
  }

  /** The slot's history after `n` turns of the capture loop that started on
      history `h0`, from read number `from` on. */
  ghost function Captured(h0: seq<Grid>, hw: Hardware, from: nat, n: nat, enabled: bool, loaded: bool, predict: Grid -> Prediction): seq<Grid>
  {
    if n == 0 then h0
    else Captured(h0, hw, from, n - 1, enabled, loaded, predict) + Shown(FrameAt(hw, from + n - 1), enabled, loaded, predict)
  }

  /** The loop's turns publish the images of its reads. */
  lemma {:induction false} CapturedIsPublished(h0: seq<Grid>, hw: Hardware, from: nat, n: nat, enabled: bool, loaded: bool, predict: Grid -> Prediction)
    ensures Captured(h0, hw, from, n, enabled, loaded, predict) == h0 + Published(Reads(hw, from, n), enabled, loaded, predict)
  {
    if n > 0 {
      CapturedIsPublished(h0, hw, from, n - 1, enabled, loaded, predict);
      ReadsPrefix(hw, from, n - 1);
      PublishedSnoc(Reads(hw, from, n - 1), FrameAt(hw, from + n - 1), enabled, loaded, predict);
    }
  }

  /** One more read publishes what that read shows. */
  lemma PublishedSnoc(frames: seq<Option<Grid>>, frame: Option<Grid>, enabled: bool, loaded: bool, predict: Grid -> Prediction)
    ensures Published(frames + [frame], enabled, loaded, predict)
         == Published(frames, enabled, loaded, predict) + Shown(frame, enabled, loaded, predict)
  {
    assert (frames + [frame])[..|frames|] == frames;
  }

  /** Failed reads publish nothing. */
  lemma {:induction false} FailedReadsPublishNothing(frames: seq<Option<Grid>>, enabled: bool, loaded: bool, predict: Grid -> Prediction)
    requires forall i :: 0 <= i < |frames| ==> frames[i].None?
    ensures Published(frames, enabled, loaded, predict) == []
    decreases |frames|
  {
    if frames != [] {
      FailedReadsPublishNothing(frames[..|frames| - 1], enabled, loaded, predict);
    }
  }

  /** One image is published per successful read. */
  lemma {:induction false} PublishedCount(frames: seq<Option<Grid>>, enabled: bool, loaded: bool, predict: Grid -> Prediction)
    ensures |Published(frames, enabled, loaded, predict)| == |set i | 0 <= i < |frames| && frames[i].Some?|
    decreases |frames|
  {
    if frames != [] {
      var n := |frames| - 1;
      PublishedCount(frames[..n], enabled, loaded, predict);
      ShownSize(frames[n], enabled, loaded, predict);
      var before := set i | 0 <= i < n && frames[..n][i].Some?;
      var now := set i | 0 <= i < |frames| && frames[i].Some?;
      if frames[n].Some? {
        assert now == before + {n};
      } else {
        assert now == before;
      }
    }
  }

  lemma ShownSize(frame: Option<Grid>, enabled: bool, loaded: bool, predict: Grid -> Prediction)
    ensures |Shown(frame, enabled, loaded, predict)| == if frame.Some? then 1 else 0
  {
  }

  /** The last image published is the overlay of the last frame read successfully. */
  lemma {:induction false} LastPublished(frames: seq<Option<Grid>>, enabled: bool, loaded: bool, predict: Grid -> Prediction, k: nat)
    requires k < |frames| && frames[k].Some? && IsImage(frames[k].value)
    requires forall i :: k < i < |frames| ==> frames[i].None?
    ensures var p := Published(frames, enabled, loaded, predict);
      p != [] && p[|p| - 1] == Annotated(frames[k].value, enabled, loaded, predict)
    decreases |frames|
  {
    var n := |frames| - 1;
    assert Published(frames, enabled, loaded, predict)
        == Published(frames[..n], enabled, loaded, predict) + Shown(frames[n], enabled, loaded, predict);
    if k < n {
      LastPublished(frames[..n], enabled, loaded, predict, k);
      assert Shown(frames[n], enabled, loaded, predict) == [];
    } else {
      assert Shown(frames[n], enabled, loaded, predict) == [Annotated(frames[k].value, enabled, loaded, predict)];
    }
  }

  /** With the overlay off, the images published are exactly the frames read. */
  lemma {:induction false} PublishedWithoutAi(frames: seq<Option<Grid>>, loaded: bool, predict: Grid -> Prediction)
    ensures Published(frames, false, loaded, predict) == Images(frames)
    decreases |frames|
  {
    if frames != [] {
      PublishedWithoutAi(frames[..|frames| - 1], loaded, predict);
    }
  }

  /** The images among some reads. */
  ghost function Images(frames: seq<Option<Grid>>): seq<Grid>
  {
    if frames == [] then []
    else
      var n := |frames| - 1;
      Images(frames[..n]) + (match frames[n] case None => [] case Some(g) => [g])
  }

  /** The counters and the history the capture loop moves forward. */
  datatype Tally = Tally(grabs: nat, queries: nat, history: seq<Grid>)

  /** The tally of a device and a slot. */
  ghost function Observed(device: VideoCapture, slot: FrameSlot): Tally
    reads device, slot
  {
    Tally(device.grabs, device.queries, slot.history)
  }

  /** The tally after `n` turns of the loop starting from tally `t0` on hardware `hw`. */
  ghost function After(t0: Tally, hw: Hardware, n: nat, enabled: bool, loaded: bool, predict: Grid -> Prediction): Tally
  {
    Tally(t0.grabs + n, t0.queries, Captured(t0.history, hw, t0.grabs, n, enabled, loaded, predict))
  }

  /** The state of the capture loop after `n` turns that started from tally `t0`. */
  ghost predicate Progress(device: VideoCapture, slot: FrameSlot, enabled: bool, loaded: bool, predict: Grid -> Prediction, t0: Tally, n: nat)
    reads device, slot, slot.Repr
  {
    && slot.Valid() && device !in slot.Repr && !device.released && WellFormed(device.hw)
    && Observed(device, slot) == After(t0, device.hw, n, enabled, loaded, predict)
  }

  /** One turn of the capture loop: read a frame and, when the read succeeds,
      publish `apply_ai(frame)`. */
  method CaptureStep(device: VideoCapture, slot: FrameSlot, enabled: bool, loaded: bool, predict: Grid -> Prediction)
    requires slot.Valid() && device !in slot.Repr && !device.released && WellFormed(device.hw)
    modifies device, slot
    ensures slot.Valid() && device !in slot.Repr && fresh(slot.Repr - old(slot.Repr)) && !device.released
    ensures device.grabs == old(device.grabs) + 1 && device.queries == old(device.queries)
    ensures slot.history == old(slot.history) + Shown(FrameAt(device.hw, old(device.grabs)), enabled, loaded, predict)
  {
    var frame := device.Read();
    if frame.Some? {
      var shown := ApplyAi(frame.value, enabled, loaded, predict);
      slot.Publish(shown);
    }
  }

  /** A turn of the loop takes it from `n` turns to `n + 1`. */
  method Advance(device: VideoCapture, slot: FrameSlot, enabled: bool, loaded: bool, predict: Grid -> Prediction, ghost t0: Tally, ghost n: nat)
    requires Progress(device, slot, enabled, loaded, predict, t0, n)
    modifies device, slot
    ensures Progress(device, slot, enabled, loaded, predict, t0, n + 1)
    ensures fresh(slot.Repr - old(slot.Repr))
  {
    CaptureStep(device, slot, enabled, loaded, predict);
  }

  /** Lines 169-176: `while not restart_flag`, read a frame and, when the read
      succeeds, publish a copy of `apply_ai(frame)`. `turns` is how many checks of
      the flag find it clear: the flag belongs to another thread, so the loop is
      modelled by the number of turns it makes before that thread sets it. */
  method CaptureLoop(device: VideoCapture, slot: FrameSlot, enabled: bool, loaded: bool, predict: Grid -> Prediction, turns: nat)
    requires slot.Valid() && device !in slot.Repr && !device.released && WellFormed(device.hw)
    modifies device, slot
    ensures Progress(device, slot, enabled, loaded, predict, old(Observed(device, slot)), turns)
    ensures fresh(slot.Repr - old(slot.Repr))
  {
    ghost var t0 := Observed(device, slot);
    var n := 0;
    while n < turns
      invariant 0 <= n <= turns
      invariant Progress(device, slot, enabled, loaded, predict, t0, n)
      invariant fresh(slot.Repr - old(slot.Repr))
    {
      Advance(device, slot, enabled, loaded, predict, t0, n);
      n := n + 1;
    }
  }
}
