/** The camera list of the configuration page (`listar_cameras`): every video
    device that opens is listed with the card name `v4l2-ctl --info` reports. */
module Devices {
  import opened Wrappers
  import opened Text
  import opened Camera

  const CardTypeLabel := "Card type"

  /** The entry shown when no device opens. */
  const NoCamera := "Nenhuma c\U{e2}mera detectada"

  /** The index of the first line that contains `Card type`, or `|lines|`. */
  function FirstCardLine(lines: seq<string>): (k: nat)
    ensures k <= |lines|
    ensures forall j :: 0 <= j < k ==> !Occurs(CardTypeLabel, lines[j])
    ensures k < |lines| ==> Occurs(CardTypeLabel, lines[k])
  {
    if lines == [] then 0
    else if Occurs(CardTypeLabel, lines[0]) then 0
    else 1 + FirstCardLine(lines[1..])
  }

  /** The text after the last `:` of a line, stripped. */
  function FieldValue(line: string): string
  {
    Strip(LastPiece(line, ':'))
  }

  /** The name listed for a device that opened, given what `v4l2-ctl --info` printed
      (`None` when it could not be run): the value of the first `Card type` line;
      the whole output when there is no such line; the device path when the command
      failed. */
  function DisplayName(device: string, info: Option<string>): (name: string)
    ensures info.None? ==> name == device
    ensures info.Some? && FirstCardLine(SplitLines(info.value)) == |SplitLines(info.value)| ==> name == info.value
    ensures info.Some? && FirstCardLine(SplitLines(info.value)) < |SplitLines(info.value)| ==>
      && ':' !in name
      && (name != [] ==> !IsSpace(name[0]) && !IsSpace(name[|name| - 1]))
      && (exists i :: OccursAt(name, SplitLines(info.value)[FirstCardLine(SplitLines(info.value))], i))
      && exists t :: TextAfterLast(SplitLines(info.value)[FirstCardLine(SplitLines(info.value))], t, ':') && name == Strip(t)
  {
    match info
    case None => device
    case Some(out) =>
      var lines := SplitLines(out);
      var k := FirstCardLine(lines);
      if k < |lines| then
        FieldValueShape(lines[k]);
        FieldValue(lines[k])
      else out
  }

  /** A slice of a slice of `s` occurs in `s`, and holds only characters of the outer slice. */
  lemma SliceOfSlice(s: string, a: nat, t: string, b: nat, u: string)
    requires a + |t| <= |s| && t == s[a..a + |t|]
    requires b + |u| <= |t| && u == t[b..b + |u|]
    ensures OccursAt(u, s, a + b)
    ensures forall c :: c in u ==> c in t
  {
    forall j | 0 <= j < |u|
      ensures s[a + b + j] == u[j]
    {
      assert u[j] == t[b + j] == s[a + b + j];
    }
    assert s[a + b..a + b + |u|] == u;
    forall c | c in u
      ensures c in t
    {
      var j :| 0 <= j < |u| && u[j] == c;
      assert t[b + j] == c;
    }
  }

  /** A field value is the text after the line's last `:`, stripped: it holds no
      `:` and is taken from the line's tail. */
  lemma FieldValueShape(line: string)
    ensures ':' !in FieldValue(line)
    ensures exists i :: OccursAt(FieldValue(line), line, i)
    ensures exists t :: TextAfterLast(line, t, ':') && FieldValue(line) == Strip(t)
  {
    LastPieceIsSuffix(line, ':');
    StrippedTail(line, LastPiece(line, ':'));
  }

  lemma StrippedTail(line: string, tail: string)
    requires |tail| <= |line| && tail == line[|line| - |tail|..] && ':' !in tail
    ensures ':' !in Strip(tail)
    ensures exists i :: OccursAt(Strip(tail), line, i)
  {
    var u := Strip(tail);
    InnerSlice(line, tail, Leading(tail), u);
    assert OccursAt(u, line, |line| - |tail| + Leading(tail));
  }

  lemma InnerSlice(line: string, tail: string, b: nat, u: string)
    requires |tail| <= |line| && tail == line[|line| - |tail|..] && ':' !in tail
    requires b + |u| <= |tail| && u == tail[b..b + |u|]
    ensures ':' !in u && OccursAt(u, line, |line| - |tail| + b)
  {
    SliceOfSlice(line, |line| - |tail|, tail, b, u);
  }

  /** The value of a line `<key>:<padding><name>` is the name, whatever the key
      holds, when neither the padding nor the name holds a `:`. */
  lemma FieldOfLine(key: string, pad: string, name: string)
    requires ':' !in pad && ':' !in name && AllSpace(pad)
    requires |name| > 0 && !IsSpace(name[0]) && !IsSpace(name[|name| - 1])
    ensures FieldValue(key + [':'] + pad + name) == name
  {
    var line := key + [':'] + pad + name;
    var tail := pad + name;
    assert line == (key + [':']) + tail;
    assert line[|line| - |tail|..] == tail;
    assert line[|line| - |tail| - 1] == ':';
    assert TextAfterLast(line, tail, ':');
    LastPieceIsSuffix(line, ':');
    TextAfterLastUnique(line, LastPiece(line, ':'), tail, ':');
    StripPadded(pad, name);
  }

  lemma ConcatNoBreak(a: string, b: string)
    requires NoBreak(a) && NoBreak(b)
    ensures NoBreak(a + b)
  {
    forall j | 0 <= j < |a + b|
      ensures !IsLineBreak((a + b)[j])
    {
      if j >= |a| {
        assert (a + b)[j] == b[j - |a|];
      }
    }
  }

  lemma ReportNoBreak(before: seq<string>, line: string, after: seq<string>)
    requires forall k :: 0 <= k < |before| ==> NoBreak(before[k])
    requires NoBreak(line)
    requires forall k :: 0 <= k < |after| ==> NoBreak(after[k])
    ensures forall k :: 0 <= k < |before + [line] + after| ==> NoBreak((before + [line] + after)[k])
  {
    var lines := before + [line] + after;
    forall k | 0 <= k < |lines|
      ensures NoBreak(lines[k])
    {
      if k < |before| {
        assert lines[k] == before[k];
      } else if k > |before| {
        assert lines[k] == after[k - |before| - 1];
      }
    }
  }

  /** Lines joined by newlines split back, with one of them singled out. */
  lemma SplitReport(before: seq<string>, line: string, after: seq<string>)
    requires forall k :: 0 <= k < |before| ==> NoBreak(before[k])
    requires NoBreak(line)
    requires forall k :: 0 <= k < |after| ==> NoBreak(after[k])
    ensures SplitLines(Join(before + [line] + after, '\n') + "\n") == before + [line] + after
  {
    ReportNoBreak(before, line, after);
    SplitLinesTerminated(before + [line] + after);
  }

  /** Text that occurs in a prefix occurs in the whole. */
  lemma OccursInExtension(t: string, a: string, b: string)
    requires Occurs(t, a)
    ensures Occurs(t, a + b)
  {
    var i :| OccursAt(t, a, i);
    assert (a + b)[i..i + |t|] == a[i..i + |t|];
    assert OccursAt(t, a + b, i);
  }

  /** A `Card type` key makes the whole line a card line. */
  lemma CardLineMentionsLabel(key: string, pad: string, name: string)
    requires Occurs(CardTypeLabel, key)
    ensures Occurs(CardTypeLabel, key + [':'] + pad + name)
  {
    OccursInExtension(CardTypeLabel, key, [':']);
    OccursInExtension(CardTypeLabel, key + [':'], pad);
    OccursInExtension(CardTypeLabel, key + [':'] + pad, name);
  }

  lemma LineNoBreak(key: string, pad: string, name: string)
    requires NoBreak(key) && NoBreak(pad) && NoBreak(name)
    ensures NoBreak(key + [':'] + pad + name)
  {
    ConcatNoBreak(key, [':']);
    ConcatNoBreak(key + [':'], pad);
    ConcatNoBreak(key + [':'] + pad, name);
  }

  /** A v4l2 report made of the lines `before`, then `<key>:<padding><name>`, then
      `after`: no line holds a line break, no line before the key line mentions
      `Card type` but the key does, the padding is white space, and neither the
      padding nor the name holds a `:` (the key may), which makes the name the text
      after the line's last `:`; the name neither starts nor ends with white space. */
  ghost predicate CardReport(before: seq<string>, key: string, pad: string, name: string, after: seq<string>)
  {
    && (forall k :: 0 <= k < |before| ==> NoBreak(before[k]) && !Occurs(CardTypeLabel, before[k]))
    && Occurs(CardTypeLabel, key) && NoBreak(key)
    && AllSpace(pad) && NoBreak(pad) && ':' !in pad
    && NoBreak(name) && ':' !in name && |name| > 0 && !IsSpace(name[0]) && !IsSpace(name[|name| - 1])
    && (forall k :: 0 <= k < |after| ==> NoBreak(after[k]))
  }

  /** The report as the command prints it: every line ended by a newline. */
  function ReportText(before: seq<string>, key: string, pad: string, name: string, after: seq<string>): string
  {
    Join(before + [key + [':'] + pad + name] + after, '\n') + "\n"
  }

  lemma ReportLines(before: seq<string>, key: string, pad: string, name: string, after: seq<string>)
    requires CardReport(before, key, pad, name, after)
    ensures SplitLines(ReportText(before, key, pad, name, after)) == before + [key + [':'] + pad + name] + after
  {
    LineNoBreak(key, pad, name);
    SplitReport(before, key + [':'] + pad + name, after);
  }

  lemma ReportCardLine(before: seq<string>, key: string, pad: string, name: string, after: seq<string>)
    requires CardReport(before, key, pad, name, after)
    ensures FirstCardLine(before + [key + [':'] + pad + name] + after) == |before|
  {
    CardLineMentionsLabel(key, pad, name);
    FirstCardLineAt(before, key + [':'] + pad + name, after);
  }

  /** The name of a device is read back from a v4l2 report whose first `Card type`
      line is `<key>:<padding><name>`. */
  lemma CardNameFromReport(device: string, before: seq<string>, key: string, pad: string, name: string, after: seq<string>)
    requires CardReport(before, key, pad, name, after)
    ensures DisplayName(device, Some(ReportText(before, key, pad, name, after))) == name
  {
    var line := key + [':'] + pad + name;
    ReportLines(before, key, pad, name, after);
    ReportCardLine(before, key, pad, name, after);
    FieldOfLine(key, pad, name);
    assert (before + [line] + after)[|before|] == line;
  }

  lemma {:induction false} FirstCardLineAt(before: seq<string>, line: string, after: seq<string>)
    requires forall k :: 0 <= k < |before| ==> !Occurs(CardTypeLabel, before[k])
    requires Occurs(CardTypeLabel, line)
    ensures FirstCardLine(before + [line] + after) == |before|
    decreases |before|
  {
    if before == [] {
      assert (before + [line] + after)[0] == line;
    } else {
      FirstCardLineAt(before[1..], line, after);
      assert (before + [line] + after)[1..] == before[1..] + [line] + after;
    }
  }

  /** The card-name search of `listar_cameras` (lines 71-78): scan the lines of the
      report and stop at the first that mentions `Card type`. */
  method CardName(device: string, info: Option<string>) returns (name: string)
    ensures name == DisplayName(device, info)
  {
    match info {
      case None =>
        name := device;
      case Some(out) =>
        name := out;
        var lines := SplitLines(out);
        var k := 0;
        while k < |lines|
          invariant 0 <= k <= |lines|
          invariant forall j :: 0 <= j < k ==> !Occurs(CardTypeLabel, lines[j])
          invariant name == out
        {
          if Occurs(CardTypeLabel, lines[k]) {
            name := FieldValue(lines[k]);
            break;
          }
          k := k + 1;
        }
        FirstCardLineUnique(lines, k);
    }
  }

  /** The first matching line is determined by the lines before it. */
  lemma FirstCardLineUnique(lines: seq<string>, k: nat)
    requires k <= |lines|
    requires forall j :: 0 <= j < k ==> !Occurs(CardTypeLabel, lines[j])
    requires k < |lines| ==> Occurs(CardTypeLabel, lines[k])
    ensures FirstCardLine(lines) == k
  {
  }

  /** The entry listed for one device that opened. */
  function Entry(device: string, info: Option<string>): (e: string)
    ensures |e| >= |device| + 3 && e[..|device| + 3] == device + " - "
    ensures e[|device| + 3..] == DisplayName(device, info)
  {
    device + " - " + DisplayName(device, info)
  }

  /** The entries for the devices that open, in device order; `opener` gives the
      hardware behind a path and `report` the output of `v4l2-ctl --info` on it. */
  function Entries(devices: seq<string>, opener: string -> Hardware, report: string -> Option<string>): seq<string>
  {
    if devices == [] then []
    else
      var d := devices[|devices| - 1];
      var last := if Answer(opener(d), 0) then [Entry(d, report(d))] else [];
      Entries(devices[..|devices| - 1], opener, report) + last
  }

  /** What `listar_cameras` returns. */
  function Listing(devices: seq<string>, opener: string -> Hardware, report: string -> Option<string>): (names: seq<string>)
    ensures |names| > 0
    ensures Entries(devices, opener, report) == [] ==> names == [NoCamera]
    ensures Entries(devices, opener, report) != [] ==> names == Entries(devices, opener, report)
  {
    var entries := Entries(devices, opener, report);
    if entries == [] then [NoCamera] else entries
  }

  lemma EntriesSnoc(devices: seq<string>, opener: string -> Hardware, report: string -> Option<string>)
    requires devices != []
    ensures
      var d := devices[|devices| - 1];
      Entries(devices, opener, report) ==
        Entries(devices[..|devices| - 1], opener, report) + (if Answer(opener(d), 0) then [Entry(d, report(d))] else [])
  {
  }

  /** Every device that opens is listed, with its name. */
  lemma {:induction false} EntriesComplete(devices: seq<string>, opener: string -> Hardware, report: string -> Option<string>, i: nat)
    requires i < |devices| && Answer(opener(devices[i]), 0)
    ensures Entry(devices[i], report(devices[i])) in Entries(devices, opener, report)
    decreases |devices|
  {
    var front := devices[..|devices| - 1];
    EntriesSnoc(devices, opener, report);
    if i < |front| {
      assert front[i] == devices[i];
      EntriesComplete(front, opener, report, i);
    }
  }

  /** Every entry listed belongs to a device that opened. */
  lemma {:induction false} EntriesSound(devices: seq<string>, opener: string -> Hardware, report: string -> Option<string>, k: nat)
    requires k < |Entries(devices, opener, report)|
    ensures exists i ::
      && 0 <= i < |devices| && Answer(opener(devices[i]), 0)
      && Entries(devices, opener, report)[k] == Entry(devices[i], report(devices[i]))
    decreases |devices|
  {
    var n := |devices| - 1;
    var front := devices[..n];
    EntriesSnoc(devices, opener, report);
    var entries := Entries(devices, opener, report);
    if k < |Entries(front, opener, report)| {
      EntriesSound(front, opener, report, k);
      var i :| 0 <= i < |front| && Answer(opener(front[i]), 0) &&
        Entries(front, opener, report)[k] == Entry(front[i], report(front[i]));
      assert devices[i] == front[i];
      assert entries[k] == Entries(front, opener, report)[k];
    } else {
      assert entries[k] == Entry(devices[n], report(devices[n]));
    }
  }

  /** As many entries as devices that open. */
  lemma {:induction false} EntriesCount(devices: seq<string>, opener: string -> Hardware, report: string -> Option<string>)
    ensures |Entries(devices, opener, report)| == |set i | 0 <= i < |devices| && Answer(opener(devices[i]), 0)|
    decreases |devices|
  {
    if devices != [] {
      var n := |devices| - 1;
      var front := devices[..n];
      EntriesCount(front, opener, report);
      var before := set i | 0 <= i < n && Answer(opener(front[i]), 0);
      var now := set i | 0 <= i < |devices| && Answer(opener(devices[i]), 0);
      if Answer(opener(devices[n]), 0) {
        assert now == before + {n};
      } else {
        assert now == before;
      }
    }
  }

  /** `listar_cameras`: probe each device in turn, list the ones that open with
      their card names, release every device probed, and fall back to the
      single entry `Nenhuma câmera detectada`. */
  method ListCameras(devices: seq<string>, opener: string -> Hardware, report: string -> Option<string>)
    returns (cameras: seq<string>, ghost probed: seq<VideoCapture>)
    ensures cameras == Listing(devices, opener, report)
    ensures |probed| == |devices|
    ensures forall i :: 0 <= i < |probed| ==> probed[i].device == devices[i] && probed[i].released
  {
    cameras := [];
    probed := [];
    var t := 0;
    while t < |devices|
      invariant 0 <= t <= |devices|
      invariant cameras == Entries(devices[..t], opener, report)
      invariant |probed| == t
      invariant forall i :: 0 <= i < t ==> probed[i].device == devices[i] && probed[i].released
    {
      var dev := devices[t];
      var cap := new VideoCapture(dev, opener(dev));
      var isOpen := cap.IsOpened();
      if isOpen {
        var name := CardName(dev, report(dev));
        cameras := cameras + [dev + " - " + name];
      }
      cap.Release();
      probed := probed + [cap];
      assert devices[..t + 1][..t] == devices[..t];
      t := t + 1;
    }
    assert devices[..t] == devices;
    if cameras == [] {
      cameras := cameras + [NoCamera];
    }
  }
}
