# VTSurgical SmartCapture: the frame pipeline, in Dafny

This project models the core of `webstream_linux.py`, the Linux server that streams one surgical camera to web browsers.

- **Camera start-up.**
  - The camera index names a device path.
  - `start_camera` releases the previous device if it is open and opens the new one.
  - It tries the codecs MJPG, YUYV and H264 in that order, stopping at the first that reports the device open.
  - It then sets the configured width, height and frame rate once, and reports whether the device is open.
- **Capture loop.**
  - `capture_frames` reads frames until the restart flag is set.
  - Each frame read successfully goes through the AI overlay. A copy then goes into the shared frame slot (`current_frame`).
  - At the end the loop releases the device if it is open.
- **AI overlay.**
  - `apply_ai` returns the frame as it is when the feature is off, when no model is loaded, or when any segmentation step raises.
  - Otherwise it draws the contours found onto the frame, in green.
- **Stream.**
  - `generate_stream` takes a snapshot of the slot each time. With no frame published yet, the snapshot is a black 480×640×3 image.
  - It sends the encoded snapshot as one part of a `multipart/x-mixed-replace` response, then pauses `1 / CAMERA_FPS` seconds.
  - Each part opens with the delimiter of the boundary that `/video_feed` declares (`frame`).
- **Configuration boundary.**
  - `load_config` lays the user's file over the defaults.
  - The login check reads the user table.
  - The `/toggle_ia` switch flips the overlay on or off.
  - The `save_all` form writes the equipment name, the camera index, the `WxH` resolution and the frame rate.
  - `listar_cameras` lists every device that opens, with the card name `v4l2-ctl --info` reports, or a single "no camera" entry when none opens.

## How the model is built

**Hardware as an oracle.** The OpenCV capture device is the class `Camera.VideoCapture`. Its hardware is a value `Hardware(answers, frames)`:
- `answers` are the answers `isOpened()` gives, in call order;
- `frames` are what the successive `read()` calls return;
- past either sequence the device is closed or delivers nothing.

The device keeps a ghost trace of every call made on it. Negotiation is proved against that trace: the codecs set come in the fixed order, and no codec is set after the device has answered "open".

**Frames and the slot.**
- Frames are `array3<byte>` buffers. Their content is the value `Frames.Grid`.
- `apply_ai` draws in place and returns the same buffer.
- The slot (`Slot.FrameSlot`) keeps its own copy of each frame published, plus a ghost history of everything published.

**The capture loop.** The restart flag belongs to another thread, so the loop is modelled by its number of turns. A turn is one check of the flag that found it clear. The flag write that ends the loop follows the last turn.

**Specification functions.** What the loop publishes is stated by `Capture.Published` over the frames its reads return. Lemmas about `Published` give:
- one image per successful read;
- failed reads publish nothing;
- the last image published is the overlay of the last frame read successfully;
- with the overlay off, the frames are published unchanged.

**Python semantics.** The model writes out the Python details the code relies on:
- `str.isdigit`, `str(int)`, `int(str)` (sign, surrounding white space, underscores);
- `str.strip`, `str.split` and `str.splitlines`, and the `in` substring test;
- the exceptions the code can raise, as `None`, `Fault` or a `false` result.

**The overlay draws in place.** `cv2.drawContours` at `webstream_linux.py:116` draws on the frame it is given, and `apply_ai` returns that same frame rather than a new annotated one. The model follows the code.

**A detail the code has and the model keeps.** When the `v4l2-ctl --info` output has no `Card type` line, the name listed is the whole output of the command, not the device path. The variable `name` still holds that output after the loop finds nothing.

## Model

| member | source | states |
|---|---|---|
| Camera.DevicePath | webstream_linux.py:130 | the path is the index itself exactly when the index is not all digits; when it differs it is `/dev/video` followed by the index |
| Camera.DevicePathOfInt | webstream_linux.py:130 | a non-negative integer index `n` gives `/dev/video` followed by the decimal digits of `n`, and `n` reads back from that suffix; a negative index is used, as its text, as the path |
| Camera.DevicePathOfText | webstream_linux.py:130 | a text index is used unchanged exactly when it is not made only of digits |
| Config.PyStr | webstream_linux.py:130 | `int()` reads `str()` of an integer value back as that integer, and `str()` of it is all digits exactly when it is non-negative; `str()` of a string is the string; only integers and strings give an all-digit text (`None`, `True`, `False` and objects do not) |
| Camera.VideoCapture.constructor | webstream_linux.py:131 | a new capture device on the path, with no calls made and not released |
| Camera.VideoCapture.SetFourcc | webstream_linux.py:135 | setting the codec records the call and changes neither the counters nor the released state |
| Camera.VideoCapture.SetProperty | webstream_linux.py:141-143 | setting width, height or frame rate records the hint and changes nothing else |
| Camera.VideoCapture.IsOpened | webstream_linux.py:153 | a released device answers closed; otherwise the answer is the hardware's next one; one more query is counted and recorded |
| Camera.VideoCapture.Read | webstream_linux.py:170 | a read succeeds exactly when the device is not released and the hardware has a frame for that read; the frame is a fresh buffer with that frame's pixels; one more read is counted |
| Camera.VideoCapture.Release | webstream_linux.py:128 | the device is released and the call is recorded |
| Camera.Attempts | webstream_linux.py:134-139 | one to three codecs are tried: every attempt before the last answered closed, and the last answered open unless all three were tried; if any of the three answers is open, the last attempt's is |
| Camera.CodecCallAt | webstream_linux.py:134-139 | the codec attempts alternate: call `2m` sets codec number `m` of MJPG, YUYV, H264 and call `2m+1` asks `isOpened()` with the hardware's answer |
| Camera.CodecCallsSet | webstream_linux.py:134-139 | the first `k` attempts set the first `k` codecs of MJPG, YUYV, H264, in that order |
| Camera.TryCodecs | webstream_linux.py:134-139 | the loop makes exactly `Attempts` attempts, asks `isOpened()` once per attempt, records those calls and reads no frame |
| Camera.NegotiationOrder | webstream_linux.py:134-143 | the codecs set during start-up are the prefix of MJPG, YUYV, H264 whose length is the number of attempts; the size and rate hints set no codec |
| Camera.NoCodecAfterOpened | webstream_linux.py:134-143 | once the device has answered open, no later call during start-up sets a codec |
| Camera.NegotiationFails | webstream_linux.py:134-139 | with no codec's attempt answering open, exactly three attempts are made and all three codecs are set, in the order MJPG, YUYV, H264 |
| Camera.Negotiate | webstream_linux.py:133-158 | start-up on a new device makes the codec attempts, then the width, height and frame-rate hints once, then one final `isOpened()` whose answer is the result; four closed answers in a row make it fail, and success needs one of those four to be open; no frame is read and the device is not released |
| Server.ReleaseIfOpen | webstream_linux.py:127-128 | an existing device is asked `isOpened()` once and is afterwards released exactly when it already was or it answered open |
| Server.Server.StartCamera | webstream_linux.py:125-158 | the previous device is released if open; a fresh device is opened on the path the index names; its call trace is the negotiation with the configured width, height and rate; the result is the final `isOpened()` answer, false when the device answers closed four times; the flags are unchanged |
| Server.Server.OpenDevice | webstream_linux.py:127-158 | the same steps once the path is known: the previous device released if open, a fresh device on that path, the negotiation as its call trace, the final `isOpened()` answer as the result, false when the device answers closed four times |
| Server.Server.constructor | webstream_linux.py:29-34 | at start-up there is no device, the restart flag is clear, the overlay is on, the slot is empty and the configuration is the loaded one |
| Capture.CaptureStep | webstream_linux.py:170-176 | one turn reads the next frame; only a successful read publishes, and it publishes the overlaid image; the turn counts one read |
| Capture.Advance | webstream_linux.py:169-176 | a turn takes the loop's state of `n` turns to that of `n + 1` turns: one read more, and that read's image published |
| Capture.CaptureLoop | webstream_linux.py:169-176 | after `turns` turns the device has made `turns` more reads and no `isOpened()` query; the slot's history has grown by the images of those reads, each overlaid, nothing for a failed read |
| Server.Server.CaptureFrames | webstream_linux.py:164-178 | the configured camera is started; if it does not start, nothing is published and the device is not released; otherwise the slot's history grows by `Published` of the reads made before the flag is set, the flag is set at the end and the device is released exactly when it answers open |
| Capture.Reads | webstream_linux.py:170 | `n` reads from read number `from` return, in order, the hardware's frames for those reads, and nothing for a read past the last frame the hardware has |
| Capture.CapturedIsPublished | webstream_linux.py:169-176 | the history after `n` turns is the starting history followed by `Published` of the `n` reads |
| Capture.PublishedSnoc | webstream_linux.py:169-176 | one more read publishes its overlaid image when it succeeds and nothing when it fails |
| Capture.FailedReadsPublishNothing | webstream_linux.py:171-173 | reads that all fail publish nothing |
| Capture.PublishedCount | webstream_linux.py:169-176 | exactly one image is published per successful read |
| Capture.LastPublished | webstream_linux.py:174-176 | the last image published is the overlay of the last frame read successfully |
| Capture.PublishedWithoutAi | webstream_linux.py:108-109 | with the overlay switched off, the images published are exactly the frames read, in order |
| Overlay.Annotated | webstream_linux.py:106-119 | the overlay leaves the frame unchanged when the feature is off, no model is loaded, a segmentation step raises, or the frame is not a three-channel image; it never changes the frame's shape, and every pixel is either unchanged or green |
| Overlay.ApplyAi | webstream_linux.py:106-119 | `apply_ai` returns the buffer it was given, whose pixels are then the overlay of those it had |
| Overlay.NoContoursNoChange | webstream_linux.py:113-116 | a prediction that finds no contour leaves the frame as it was |
| Frames.DrawContours | webstream_linux.py:116 | drawing colours exactly the listed pixels that lie inside the frame green (0, 255, 0) and keeps every other pixel |
| Frames.FromGrid | webstream_linux.py:170 | a read's buffer is fresh and holds exactly the frame's pixels |
| Frames.Copy | webstream_linux.py:176 | `frame.copy()` is an independent buffer with the same pixels |
| Frames.BlankShape | webstream_linux.py:184 | the placeholder is 480 rows by 640 columns by 3 channels, every byte zero |
| Frames.NewBlank | webstream_linux.py:184 | `np.zeros((480, 640, 3), np.uint8)` is a fresh buffer holding the placeholder |
| Slot.FrameSlot.constructor | webstream_linux.py:30 | the slot starts empty (`current_frame = None`), with nothing published |
| Slot.FrameSlot.Publish | webstream_linux.py:175-176 | the slot holds a fresh copy of the frame, so later changes to the frame do not reach it; the history grows by exactly that frame's pixels |
| Slot.FrameSlot.Snapshot | webstream_linux.py:183-184 | a snapshot is a fresh buffer showing the last image published, or the blank placeholder when none has been |
| Stream.Part | webstream_linux.py:186 | a part is the header `--frame`, `Content-Type: image/jpeg` and a blank line, then the payload, then CRLF; nothing else |
| Stream.ParsePart | webstream_linux.py:186 | bytes read back as a part exactly when they are the part of some payload, and then the payload read gives back exactly those bytes |
| Stream.PartRoundTrip | webstream_linux.py:186 | reading a part back gives its payload |
| Stream.Boundary | webstream_linux.py:243 | the boundary of a mimetype is the text after its last `=`: a suffix holding no `=`, preceded by `=` unless the mimetype has none |
| Stream.MimeTypeBoundary | webstream_linux.py:243 | the `/video_feed` mimetype declares the boundary `frame` |
| Stream.Delimiter | webstream_linux.py:186 | the delimiter line of a boundary is `--`, then the boundary, then CRLF, and nothing more |
| Stream.HeaderStartsWithDelimiter | webstream_linux.py:186 | the part header starts with the delimiter line of the boundary `frame` |
| Stream.DelimiterMatchesMimeType | webstream_linux.py:243 | every part written at line 186 opens, byte for byte, with the delimiter line of the boundary the mimetype declares |
| Stream.Pauses | webstream_linux.py:187 | the pause succeeds exactly when the rate is a number (`True` and `False` are 1 and 0), not zero and not negative; otherwise it raises `TypeError`, `ZeroDivisionError` or `ValueError` |
| Stream.PartsSent | webstream_linux.py:182-187 | a client asking for `n` parts gets all `n` when the pause succeeds and at most one (exactly one when `n > 0`) when it raises |
| Stream.GenerateStream | webstream_linux.py:180-187 | the stream sends `PartsSent` parts; every one of them is the part of the encoded snapshot and reads back as that encoding |
| Config.CompleteHasCameraKeys | webstream_linux.py:16-26 | a configuration holding every default key holds the camera index, width, height and frame rate that start-up reads |
| Config.Merged | webstream_linux.py:47 | `dict.update`: the keys are those of both; the user's value wins wherever the user has the key; the default stays elsewhere |
| Config.Loaded | webstream_linux.py:40-49 | the loaded configuration always holds every default key; no file, an unreadable file or a document that is not an object leave the defaults; an object adds its own keys |
| Config.LoadedOverrides | webstream_linux.py:42-47 | an object document overrides exactly the keys it holds and keeps every other default |
| Config.Settings.constructor | webstream_linux.py:42 | the store starts as a copy of the defaults |
| Config.Settings.Load | webstream_linux.py:40-49 | after `load_config` the store is the loaded configuration for what the file held |
| Config.Authenticate | webstream_linux.py:229 | a login is granted exactly when the user table is an object holding the user as an object with a `password` equal to the one given; it raises exactly when there is no table, the table is neither an object nor a string, the table is a string containing the user name, or the account is not an object or has no password; otherwise it is denied |
| Config.LoginAgainstTable | webstream_linux.py:229 | against a well-formed user table the check never raises, and it grants exactly the known user with the stored password |
| Config.DefaultLogin | webstream_linux.py:229 | with the defaults of line 26, only `hupe` with `hupe@2.0` is let in |
| Config.ResolutionRoundTrip | webstream_linux.py:261-262 | a resolution written `<w>x<h>` reads back as `(w, h)` |
| Config.ResolutionIgnoresExtraPieces | webstream_linux.py:261-262 | whatever text follows a second `x` is ignored: `<w>x<h>x<anything>` reads as `(w, h)` |
| Config.ResolutionNeedsSeparator | webstream_linux.py:261-262 | text without an `x` is rejected (the `IndexError` on `res[1]`) |
| Config.FormIntText | webstream_linux.py:260 | a form number written the usual way reads back as that number |
| Config.SaveAllFrame | webstream_linux.py:258-263 | saving writes no key but the five camera-form keys, and a configuration holding every default key still holds them all |
| Config.SaveAllWritesNameFirst | webstream_linux.py:259-263 | the equipment name is written even when a later field raises, and saving completes exactly when the index, the resolution and the rate all parse |
| Config.SaveAllBadResolution | webstream_linux.py:259-262 | a resolution without `x` fails after the name and the index are written, leaving the width, height and rate as they were |
| Config.SaveAllWellFormed | webstream_linux.py:258-263 | a form of well-written numbers is saved whole, value for value |
| Config.Settings.SaveAll | webstream_linux.py:258-263 | the store after `save_all` is the effect of its assignments, in source order up to the first that raises, and `ok` says whether all ran |
| Devices.FirstCardLine | webstream_linux.py:73-76 | the index found is that of the first line mentioning `Card type`; no line before it does; with no such line it is the number of lines |
| Devices.FirstCardLineUnique | webstream_linux.py:73-76 | the first matching line is determined by the lines before it |
| Devices.DisplayName | webstream_linux.py:71-78 | a device whose `v4l2-ctl` call raised is named by its path; an output without a `Card type` line names it by the whole output; otherwise the name is the text after the last `:` of the first `Card type` line, stripped: it holds no `:`, neither starts nor ends with white space, and occurs in that line |
| Devices.CardName | webstream_linux.py:71-78 | the scan over the lines, stopping at the first `Card type` line, gives the display name |
| Devices.FieldValueShape | webstream_linux.py:75 | the value taken from a line is the stripped text after its last `:`: it holds no `:` and occurs in that line |
| Devices.CardNameFromReport | webstream_linux.py:72-76 | a report printed line by line, each line ended by a newline, whose first `Card type` line is `<key>:<padding><name>`, where the padding is white space and neither the padding nor the name holds a `:`, names the device `<name>`, whatever lines follow; the key may hold `:`, so a card name holding `:` (`Card type : UVC Camera (046d:0825)`) is listed only from its last `:` on (`0825)`) |
| Devices.Entry | webstream_linux.py:79 | an entry is the device path, then ` - `, then the display name, and nothing more |
| Devices.EntriesComplete | webstream_linux.py:66-80 | every device that opens is listed, with its name |
| Devices.EntriesSound | webstream_linux.py:66-80 | every entry listed belongs to a device that opened |
| Devices.EntriesCount | webstream_linux.py:66-80 | there are as many entries as devices that open |
| Devices.Listing | webstream_linux.py:83-85 | the list is never empty: the entries when there are any, otherwise the single `Nenhuma câmera detectada` |
| Devices.ListCameras | webstream_linux.py:61-85 | probing every device in turn gives the listing, and every device probed, one per path in order, is released afterwards |
| Server.ToggleMessage | webstream_linux.py:250-251 | the message is `IA `, a status word and ` com sucesso.`; the word is `ativada` exactly when the overlay is on and `desativada` exactly when it is off |
| Server.ToggleMessageDistinct | webstream_linux.py:250-251 | the two messages differ |
| Server.Server.ToggleIa | webstream_linux.py:247-251 | the overlay switch is flipped and the message reports the new state; the device and the restart flag are unchanged |
| Text.Decimal | webstream_linux.py:130 | `str(n)` of a natural number is all digits, and starts with `0` only for zero |
| Text.DecimalValue | webstream_linux.py:130 | the digits of `str(n)` denote `n` |
| Text.IntText | webstream_linux.py:130 | `int(str(i)) == i`, and `str(i)` is all digits exactly when `i` is non-negative |
| Text.ParseIntDecimal | webstream_linux.py:260 | `int()` of the decimal text of a natural number gives it back |
| Text.Occurs | webstream_linux.py:74 | `t in s` holds exactly when `t` occurs at some position of `s` |
| Text.Strip | webstream_linux.py:75 | `strip()` gives a slice of the text, starting after its leading white space, neither starting nor ending with white space |
| Text.StripRemovesSpace | webstream_linux.py:75 | only white space is removed, and the result is empty exactly when the text is all white space |
| Text.StripPadded | webstream_linux.py:75 | leading white space is stripped off a name that neither starts nor ends with white space |
| Text.Split | webstream_linux.py:261 | `split(sep)` gives at least one piece, none holding the separator, and joining them with it gives back the text |
| Text.SplitJoin | webstream_linux.py:261 | splitting undoes joining pieces that hold no separator |
| Text.LastPieceIsSuffix | webstream_linux.py:75 | `split(":")[-1]` is the text after the last `:`: a suffix holding no `:`, preceded by `:` unless there is none |
| Text.SplitLines | webstream_linux.py:73 | `splitlines()` gives lines holding no line boundary, and none exactly for the empty text; `SplitLinesJoin` and `SplitLinesTerminated` tie it to the text |
| Text.SplitLinesJoin | webstream_linux.py:73 | lines joined by `\n`, the last one not empty, split back into the same lines |
| Text.SplitLinesTerminated | webstream_linux.py:72-73 | lines each ended by `\n`, any of them empty, split back into the same lines: the shape of a command's printed output |

## Left out

- Threads and the frame lock. The capture thread, the stream generators and the Flask handlers run one at a time here, and each slot access is atomic.
- Nothing in the code sets `restart_flag`. `save_all` answers "restarting" but restarts nothing. The loop is modelled by the number of turns before some other writer sets the flag, and the capture loop is never started a second time.
- Server.Server.CaptureFrames: the turns of the loop are a parameter, because the moment another thread sets the flag cannot be seen from the loop.
- `time.sleep` (lines 136, 172, 187): time is not modelled. Only whether the pause after a part raises is modelled.
- `CAMERA_FPS` as a floating-point number, and floating-point configuration values in general.
- The segmentation network and OpenCV's image steps (`cv2.resize`, `predict`, the 0.5 threshold, `cv2.findContours`) are one oracle, `predict`. It gives the pixels the contours cover, or that a step raised.
- Overlay.Annotated: a frame that is not a three-channel image is left unchanged. `cv2.drawContours` on other channel counts is not modelled.
- Contour thickness (2) and the line rasterisation of `cv2.drawContours` are folded into the pixel set the oracle returns.
- `cv2.imencode` is an oracle `encode` from an image to its bytes. Its own failure is not modelled.
- The v4l2 tuning of `start_camera` (lines 145-151): foreign subprocess calls whose errors the code ignores, and which change no state the model tracks.
- `cap.set` is a hint the device may ignore: the model records the call and changes nothing else. What OpenCV does with a value that is not a number is not modelled.
- Camera.VideoCapture.Read: a device that the hardware oracle says is closed may still return frames if the oracle lists them. The model does not tie reads to the `isOpened()` answers.
- A failed `start_camera` leaves the new device unreleased. The code does this too.
- `glob.glob("/dev/video*")` and `sorted`: the device list is a parameter.
- The outer `except` of `listar_cameras` (lines 81-82): `cv2.VideoCapture` and `release` do not raise in the model.
- `subprocess.check_output` of `v4l2-ctl --info` is an oracle: the text it prints, or `None` when it raises.
- File I/O and JSON: `save_config` (lines 53-55, and the call at line 50) is not modelled. `os.path.exists`, `open` and `json.load` are folded into one reading of the file (`Config.ConfigFile`).
- JSON arrays and numbers with fractions are not modelled. So `dict.update` with a list of pairs is not modelled either.
- Text.ParseInt: digits outside ASCII, which Python's `int()` and `str.isdigit()` accept, are not modelled. Nor is CPython's limit of 4300 digits on `int()` of a text and `str()` of an integer (`ValueError` past it): the model reads and writes integers of any length.
- Config.PyStr: `str()` of a JSON object is written `{...}`, not as Python's `repr` of a dict, because a map keeps no key order. Only the fact that it is not all digits is used.
- `load_segmentation_model` (lines 91-104) appears only as the flag `modelLoaded`.
- Flask routing, sessions, `login_required`, templates and JSON responses are not modelled. Telemetry (CPU load, temperature), `train_script.py` and the browser scripts are also left out.
- Stream.GenerateStream: sends at most `n` parts, the number a client takes before it disconnects. The slot does not change during one stream, because the model has no interleaved capture.
