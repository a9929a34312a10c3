/** The camera controller: the device path, the capture device (OpenCV's
    `VideoCapture`, whose hardware answers are an oracle) and the codec
    negotiation of `start_camera`. */
module Camera {
  import opened Wrappers
  import opened Text
  import opened Config
  import opened Frames

  // ---------------------------------------------------------------------
  // Device path

  const VideoPrefix := "/dev/video"

  /** The path a camera index names: the index itself exactly when it is not made
      only of digits; otherwise the index follows the video-device prefix. */
  function DevicePath(index: string): (path: string)
    ensures path == index <==> !AllDigits(index)
    ensures path != index ==> path == VideoPrefix + index
  {
    if AllDigits(index) then VideoPrefix + index else index
  }

  /** A non-negative integer index names `/dev/video<n>`, and the number reads back
      from the path; a negative one is used, as text, as the path. */
  lemma DevicePathOfInt(n: int)
    ensures n >= 0 ==> DevicePath(PyStr(Int(n))) == VideoPrefix + Decimal(n)
    ensures n >= 0 ==> ParseInt(DevicePath(PyStr(Int(n)))[|VideoPrefix|..]) == Some(n)
    ensures n < 0 ==> DevicePath(PyStr(Int(n))) == IntText(n)
  {
    if n >= 0 {
      var path := DevicePath(PyStr(Int(n)));
      assert path[|VideoPrefix|..] == Decimal(n);
      ParseIntDecimal(n);
    } else {
      assert IntText(n)[0] == '-';
      assert !AllDigits(IntText(n));
    }
  }

  /** Text that is not all digits (a path, an empty string, `True`) is passed through. */
  lemma DevicePathOfText(s: string)
    ensures DevicePath(PyStr(Str(s))) == s <==> !AllDigits(s)
  {
    if AllDigits(s) {
      assert |VideoPrefix + s| > |s|;
    }
  }

  // ---------------------------------------------------------------------
  // The capture device

  datatype Codec = MJPG | YUYV | H264

  /** The order `start_camera` tries the codecs in. */
  const Codecs: seq<Codec> := [MJPG, YUYV, H264]

  datatype Property = FrameWidth | FrameHeight | Fps

  /** One call made on a capture device, with what it answered. */
  datatype Call =
    | Fourcc(codec: Codec)
    | Hint(property: Property, value: Value)
    | Opened(answer: bool)
    | Grab(got: bool)
    | Released

  /** The hardware behind a device path: the answers `isOpened()` gives, in call
      order, and the frames `read()` delivers (`None` for `ret == False`). */
  datatype Hardware = Hardware(answers: seq<bool>, frames: seq<Option<Grid>>)

  ghost predicate WellFormed(hw: Hardware)
  {
    forall i :: 0 <= i < |hw.frames| && hw.frames[i].Some? ==> IsImage(hw.frames[i].value)
  }

  /** The answer to the `q`-th `isOpened()` query; past the recorded answers the device stays closed. */
  function Answer(hw: Hardware, q: nat): bool
  {
    q < |hw.answers| && hw.answers[q]
  }

  /** The frame the `r`-th `read()` gets; past the recorded frames, none. */
  function FrameAt(hw: Hardware, r: nat): Option<Grid>
  {
    if r < |hw.frames| then hw.frames[r] else None
  }

  /** OpenCV's capture device, opened on a path. */
  class VideoCapture {
    const device: string
    const hw: Hardware
    /** How many `isOpened()` and `read()` calls have been made. */
    var queries: nat
    var grabs: nat
    var released: bool
    /** Every call made on the device, in order. */
    ghost var trace: seq<Call>

    constructor (device: string, hw: Hardware)
      ensures this.device == device && this.hw == hw
      ensures queries == 0 && grabs == 0 && !released && trace == []
    {
      this.device := device;
      this.hw := hw;
      queries, grabs, released := 0, 0, false;
      trace := [];
    }

    /** `isOpened()`: a released device is closed; otherwise the hardware's next answer. */
    method IsOpened() returns (b: bool)
      modifies this
      ensures b == (!released && Answer(hw, old(queries)))
      ensures queries == old(queries) + 1 && grabs == old(grabs) && released == old(released)
      ensures trace == old(trace) + [Opened(b)]
    {
      b := !released && Answer(hw, queries);
      queries := queries + 1;
      trace := trace + [Opened(b)];
    }

    /** `set(CAP_PROP_FOURCC, fourcc(codec))`. */
    method SetFourcc(codec: Codec)
      modifies this
      ensures queries == old(queries) && grabs == old(grabs) && released == old(released)
      ensures trace == old(trace) + [Fourcc(codec)]
    {
      trace := trace + [Fourcc(codec)];
    }

    /** `set(CAP_PROP_FRAME_WIDTH | CAP_PROP_FRAME_HEIGHT | CAP_PROP_FPS, value)`: a hint the device may ignore. */
    method SetProperty(property: Property, value: Value)
      modifies this
      ensures queries == old(queries) && grabs == old(grabs) && released == old(released)
      ensures trace == old(trace) + [Hint(property, value)]
    {
      trace := trace + [Hint(property, value)];
    }

    /** `read()`: a fresh buffer with the next frame, or `None` (`ret == False`). */
    method Read() returns (f: Option<Frame>)
      requires WellFormed(hw)
      modifies this
      ensures queries == old(queries) && grabs == old(grabs) + 1 && released == old(released)
      ensures f.Some? <==> !released && FrameAt(hw, old(grabs)).Some?
      ensures f.Some? ==> fresh(f.value) && Contents(f.value) == FrameAt(hw, old(grabs)).value
      ensures trace == old(trace) + [Grab(f.Some?)]
    {
      var got := FrameAt(hw, grabs);
      if !released && got.Some? {
        var buffer := FromGrid(got.value);
        f := Some(buffer);
      } else {
        f := None;
      }
      grabs := grabs + 1;
      trace := trace + [Grab(f.Some?)];
    }

    /** `release()`. */
    method Release()
      modifies this
      ensures queries == old(queries) && grabs == old(grabs) && released
      ensures trace == old(trace) + [Released]
    {
      released := true;
      trace := trace + [Released];
    }
  }

  // ---------------------------------------------------------------------
  // Codec negotiation

  /** The `n` answers from query `q` on all say closed. */
  ghost predicate ClosedFrom(hw: Hardware, q: nat, n: nat)
  {
    forall j :: q <= j < q + n ==> !Answer(hw, j)
  }

  /** How many codecs `start_camera` tries on a device whose next answer is query `q`:
      up to and including the first that reports the device opened, or all three. */
  function Attempts(hw: Hardware, q: nat): (k: nat)
    ensures 1 <= k <= 3
    ensures ClosedFrom(hw, q, k - 1)
    ensures k < 3 ==> Answer(hw, q + k - 1)
    ensures (Answer(hw, q) || Answer(hw, q + 1) || Answer(hw, q + 2)) ==> Answer(hw, q + k - 1)
  {
    if Answer(hw, q) then 1 else if Answer(hw, q + 1) then 2 else 3
  }

  /** The calls of the first `k` codec attempts. */
  function CodecCalls(hw: Hardware, q: nat, k: nat): seq<Call>
    requires k <= 3
  {
    if k == 0 then []
    else CodecCalls(hw, q, k - 1) + [Fourcc(Codecs[k - 1]), Opened(Answer(hw, q + k - 1))]
  }

  /** The calls `start_camera` makes on a new device: the codec attempts, the three
      hints, and the final `isOpened()` whose answer it returns. */
  function NegotiationCalls(hw: Hardware, q: nat, width: Value, height: Value, fps: Value): seq<Call>
  {
    var k := Attempts(hw, q);
    CodecCalls(hw, q, k)
      + [Hint(FrameWidth, width), Hint(FrameHeight, height), Hint(Fps, fps)]
      + [Opened(Answer(hw, q + k))]
  }

  /** The codecs set, in call order. */
  function CodecsSet(calls: seq<Call>): seq<Codec>
  {
    if calls == [] then []
    else
      var last := match calls[|calls| - 1] case Fourcc(c) => [c] case _ => [];
      CodecsSet(calls[..|calls| - 1]) + last
  }

  lemma {:induction false} CodecsSetAppend(a: seq<Call>, b: seq<Call>)
    ensures CodecsSet(a + b) == CodecsSet(a) + CodecsSet(b)
    decreases |b|
  {
    if b == [] {
      assert a + b == a;
    } else {
      CodecsSetAppend(a, b[..|b| - 1]);
      assert (a + b)[..|a + b| - 1] == a + b[..|b| - 1];
    }
  }

  lemma {:induction false} NoCodecs(calls: seq<Call>)
    requires forall i :: 0 <= i < |calls| ==> !calls[i].Fourcc?
    ensures CodecsSet(calls) == []
    decreases |calls|
  {
    if calls != [] {
      NoCodecs(calls[..|calls| - 1]);
    }
  }

  lemma {:induction false} CodecCallsSet(hw: Hardware, q: nat, k: nat)
    requires k <= 3
    ensures CodecsSet(CodecCalls(hw, q, k)) == Codecs[..k]
    decreases k
  {
    if k > 0 {
      CodecCallsSet(hw, q, k - 1);
      var step := [Fourcc(Codecs[k - 1]), Opened(Answer(hw, q + k - 1))];
      CodecsSetAppend(CodecCalls(hw, q, k - 1), step);
      assert CodecsSet(step) == [Codecs[k - 1]] by {
        assert step[..1] == [Fourcc(Codecs[k - 1])];
        assert CodecsSet(step[..1][..0]) == [];
      }
      assert Codecs[..k] == Codecs[..k - 1] + [Codecs[k - 1]];
    }
  }

  /** Codecs are tried in the fixed order MJPG, YUYV, H264, stopping at the first
      that reports the device opened; the hints never change the codec. */
  lemma NegotiationOrder(hw: Hardware, q: nat, width: Value, height: Value, fps: Value)
    ensures CodecsSet(NegotiationCalls(hw, q, width, height, fps)) == Codecs[..Attempts(hw, q)]
  {
    var k := Attempts(hw, q);
    CodecCallsSet(hw, q, k);
    var tail := [Hint(FrameWidth, width), Hint(FrameHeight, height), Hint(Fps, fps)]
      + [Opened(Answer(hw, q + k))];
    assert NegotiationCalls(hw, q, width, height, fps) == CodecCalls(hw, q, k) + tail;
    CodecsSetAppend(CodecCalls(hw, q, k), tail);
    NoCodecs(tail);
  }

  /** The codec attempts alternate: attempt `m` sets codec `m`, then asks `isOpened()`. */
  lemma {:induction false} CodecCallAt(hw: Hardware, q: nat, k: nat, j: nat)
    requires k <= 3 && j < 2 * k
    ensures |CodecCalls(hw, q, k)| == 2 * k
    ensures CodecCalls(hw, q, k)[j] == if j % 2 == 0 then Fourcc(Codecs[j / 2]) else Opened(Answer(hw, q + j / 2))
    decreases k
  {
    if j < 2 * (k - 1) {
      CodecCallAt(hw, q, k - 1, j);
    } else if k > 1 {
      CodecCallAt(hw, q, k - 1, 0);
    }
  }

  /** No codec is set after the device has reported itself opened. */
  lemma NoCodecAfterOpened(hw: Hardware, q: nat, width: Value, height: Value, fps: Value, i: nat, j: nat)
    requires i < j < |NegotiationCalls(hw, q, width, height, fps)|
    requires NegotiationCalls(hw, q, width, height, fps)[i] == Opened(true)
    ensures !NegotiationCalls(hw, q, width, height, fps)[j].Fourcc?
  {
    var k := Attempts(hw, q);
    var codecs := CodecCalls(hw, q, k);
    var tail := [Hint(FrameWidth, width), Hint(FrameHeight, height), Hint(Fps, fps), Opened(Answer(hw, q + k))];
    var calls := NegotiationCalls(hw, q, width, height, fps);
    assert calls == codecs + tail;
    CodecCallAt(hw, q, k, 0);
    if i < 2 * k {
      // only the last attempt can have answered `true`
      CodecCallAt(hw, q, k, i);
    }
    assert calls[j] == tail[j - 2 * k];
  }

  /** When no codec reports the device opened, all three are tried, in order, and
      the answer `start_camera` returns is the fourth one, given after the hints. */
  lemma NegotiationFails(hw: Hardware, q: nat, width: Value, height: Value, fps: Value)
    requires !Answer(hw, q) && !Answer(hw, q + 1) && !Answer(hw, q + 2)
    ensures Attempts(hw, q) == 3
    ensures CodecsSet(NegotiationCalls(hw, q, width, height, fps)) == Codecs
  {
    NegotiationOrder(hw, q, width, height, fps);
    assert Codecs[..3] == Codecs;
  }

  /** The codec loop of `start_camera` (lines 133-140): set each codec in turn and
      `break` at the first one that reports the device opened. */
  method TryCodecs(cap: VideoCapture) returns (k: nat)
    requires !cap.released
    modifies cap
    ensures k == Attempts(cap.hw, old(cap.queries))
    ensures cap.queries == old(cap.queries) + k
    ensures cap.grabs == old(cap.grabs) && !cap.released
    ensures cap.trace == old(cap.trace) + CodecCalls(cap.hw, old(cap.queries), k)
  {
    ghost var q := cap.queries;
    ghost var t0 := cap.trace;
    k := 0;
    while k < |Codecs|
      invariant 0 <= k <= 3
      invariant cap.queries == q + k && cap.grabs == old(cap.grabs) && !cap.released
      invariant cap.trace == t0 + CodecCalls(cap.hw, q, k)
      invariant ClosedFrom(cap.hw, q, k)
    {
      cap.SetFourcc(Codecs[k]);
      var isOpen := cap.IsOpened();
      assert cap.trace == t0 + CodecCalls(cap.hw, q, k + 1);
      k := k + 1;
      if isOpen {
        break;
      }
    }
  }

  /** Lines 133-158 of `start_camera` on a device just created: the codec loop,
      the three hints, then the final `isOpened()` whose answer decides success. */
  method Negotiate(cap: VideoCapture, width: Value, height: Value, fps: Value) returns (ok: bool)
    requires !cap.released
    modifies cap
    ensures cap.queries == old(cap.queries) + Attempts(cap.hw, old(cap.queries)) + 1
    ensures cap.grabs == old(cap.grabs) && !cap.released
    ensures cap.trace == old(cap.trace) + NegotiationCalls(cap.hw, old(cap.queries), width, height, fps)
    ensures ok == Answer(cap.hw, old(cap.queries) + Attempts(cap.hw, old(cap.queries)))
    ensures ClosedFrom(cap.hw, old(cap.queries), 4) ==> !ok
    ensures ok ==> exists j :: old(cap.queries) <= j < old(cap.queries) + 4 && Answer(cap.hw, j)
  {
    var k := TryCodecs(cap);
    cap.SetProperty(FrameWidth, width);
    cap.SetProperty(FrameHeight, height);
    cap.SetProperty(Fps, fps);
    ok := cap.IsOpened();
  }
}
