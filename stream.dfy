/** The MJPEG stream of `/video_feed`: each frame is sent as one part of a
    `multipart/x-mixed-replace` response, and the stream pauses `1 / CAMERA_FPS`
    seconds between parts. */
module Stream {
  import opened Wrappers
  import opened Text
  import opened Config
  import opened Frames
  import opened Slot

  /** The bytes of an ASCII text. */
  function Bytes(s: string): (b: seq<byte>)
    requires forall i :: 0 <= i < |s| ==> s[i] < 128 as char
    ensures |b| == |s|
    ensures forall i :: 0 <= i < |s| ==> b[i] == s[i] as int
  {
    seq(|s|, i requires 0 <= i < |s| => s[i] as int)
  }

  /** The response's mimetype, as `/video_feed` declares it. */
  const MimeType := "multipart/x-mixed-replace; boundary=frame"

  /** The part header written before every frame. */
  const Header := "--frame\r\nContent-Type: image/jpeg\r\n\r\n"

  const Prefix: seq<byte> := Bytes(Header)
  const Suffix: seq<byte> := Bytes("\r\n")

  /** The value of the `boundary=` parameter of a mimetype: the text after its last `=`. */
  function Boundary(mime: string): (b: string)
    ensures |b| <= |mime| && b == mime[|mime| - |b|..] && '=' !in b
    ensures '=' in mime ==> |b| < |mime| && mime[|mime| - |b| - 1] == '='
    ensures '=' !in mime ==> b == mime
  {
    LastPieceIsSuffix(mime, '=');
    var b := LastPiece(mime, '=');
    assert |b| < |mime| ==> mime[|mime| - |b| - 1] in mime;
    b
  }

  /** One part of the stream carrying `payload` (a JPEG image). */
  function Part(payload: seq<byte>): (p: seq<byte>)
    ensures |p| == |Prefix| + |payload| + |Suffix|
    ensures p[..|Prefix|] == Prefix
    ensures p[|Prefix|..|Prefix| + |payload|] == payload
    ensures p[|p| - |Suffix|..] == Suffix
  {
    Prefix + payload + Suffix
  }

  /** Reads a part back: the bytes between the header and the closing CRLF. Bytes
      read back exactly when they are a part, and then they are the part of what
      was read. */
  function ParsePart(p: seq<byte>): (r: Option<seq<byte>>)
    ensures r.Some? <==> exists payload :: p == Part(payload)
    ensures r.Some? ==> Part(r.value) == p
  {
    if |p| >= |Prefix| + |Suffix| && p[..|Prefix|] == Prefix && p[|p| - |Suffix|..] == Suffix then
      var payload := p[|Prefix|..|p| - |Suffix|];
      assert p == p[..|Prefix|] + payload + p[|p| - |Suffix|..];
      assert p == Part(payload);
      Some(payload)
    else
      None
  }

  /** The payload of a part is exactly the bytes framed by it. */
  lemma PartRoundTrip(payload: seq<byte>)
    ensures ParsePart(Part(payload)) == Some(payload)
  {
    var p := Part(payload);
    assert p[|Prefix|..|p| - |Suffix|] == payload;
  }

  /** The mimetype declares the boundary `frame`. */
  lemma MimeTypeBoundary()
    ensures Boundary(MimeType) == "frame"
  {
    var pieces := ["multipart/x-mixed-replace; boundary", "frame"];
    assert MimeType == Join(pieces, '=') by {
      assert Join(pieces, '=') == pieces[0] + ['='] + Join(pieces[1..], '=');
      assert pieces[1..] == ["frame"];
    }
    assert '=' !in pieces[0] by {
      assert forall k :: 0 <= k < |pieces[0]| ==> pieces[0][k] != '=';
    }
    SplitJoin(pieces, '=');
  }

  /** The delimiter line that opens a part with boundary `token`. */
  function Delimiter(token: string): (d: string)
    ensures |d| == |token| + 4 && d[..2] == "--" && d[2..|token| + 2] == token
    ensures d[|token| + 2..] == "\r\n"
  {
    "--" + token + "\r\n"
  }

  lemma HeaderStartsWithDelimiter()
    ensures Header[..9] == Delimiter("frame")
  {
    var d := Delimiter("frame");
    assert d == "--frame\r\n";
    forall i | 0 <= i < 9
      ensures Header[..9][i] == d[i]
    {
    }
  }

  /** Every part opens with the delimiter line for the boundary the mimetype declares. */
  lemma DelimiterMatchesMimeType(payload: seq<byte>)
    ensures |Delimiter(Boundary(MimeType))| <= |Part(payload)|
    ensures forall i :: 0 <= i < |Delimiter(Boundary(MimeType))| ==>
      Part(payload)[i] == Delimiter(Boundary(MimeType))[i] as int
  {
    MimeTypeBoundary();
    HeaderStartsWithDelimiter();
    var d := Delimiter("frame");
    forall i | 0 <= i < |d|
      ensures Part(payload)[i] == d[i] as int
    {
      assert Part(payload)[i] == Prefix[i] == Header[i] as int;
      assert Header[i] == Header[..9][i];
    }
  }

  /** The number Python's arithmetic sees in a configuration value: an integer,
      or a boolean as 0 or 1; `None` where `1 / value` raises `TypeError`. */
  function Number(v: Value): Option<int>
  {
    match v
    case Int(n) => Some(n)
    case Bool(b) => Some(if b then 1 else 0)
    case _ => None
  }

  /** Whether the pause between parts, a sleep of `1 / CAMERA_FPS` seconds, goes
      through. It needs a number (else `TypeError`), not zero (else
      `ZeroDivisionError`), and not negative (else `sleep` raises `ValueError`).
      Each error ends the response. */
  function Pauses(fps: Value): (ok: bool)
    ensures ok <==> Number(fps).Some? && Number(fps).value != 0 && Number(fps).value >= 0
  {
    match fps
    case Int(n) => n > 0
    case Bool(b) => b
    case _ => false
  }

  /** How many parts a client that asks for `n` receives. */
  function PartsSent(fps: Value, n: nat): (k: nat)
    ensures k <= n
    ensures n > 0 ==> k > 0
    ensures Pauses(fps) ==> k == n
    ensures !Pauses(fps) ==> k <= 1
  {
    if Pauses(fps) || n == 0 then n else 1
  }

  /** `generate_stream` for a client that takes `n` parts: each part carries
      the encoding of a snapshot of the slot (the last published frame, or the blank
      placeholder), until the pause after a part raises. */
  method GenerateStream(slot: FrameSlot, fps: Value, encode: Grid -> seq<byte>, n: nat) returns (parts: seq<seq<byte>>)
    requires slot.Valid()
    ensures |parts| == PartsSent(fps, n)
    ensures forall i :: 0 <= i < |parts| ==> parts[i] == Part(encode(slot.View()))
    ensures forall i :: 0 <= i < |parts| ==> ParsePart(parts[i]) == Some(encode(slot.View()))
  {
    parts := [];
    var sent := 0;
    while sent < n
      invariant 0 <= sent <= n && |parts| == sent
      invariant !Pauses(fps) ==> sent == 0
      invariant forall i :: 0 <= i < sent ==> parts[i] == Part(encode(slot.View()))
    {
      var frame := slot.Snapshot();
      parts := parts + [Part(encode(Contents(frame)))];
      sent := sent + 1;
      if !Pauses(fps) {
        break;
      }
    }
    forall i | 0 <= i < |parts|
      ensures ParsePart(parts[i]) == Some(encode(slot.View()))
    {
      PartRoundTrip(encode(slot.View()));
    }
  }
}
