/**
 * The MJPEG relay's frame splitter (webserver/app.py, `stream.generate`).
 *
 * Bytes received from the camera stream accumulate in a buffer. While the
 * buffer holds both a JPEG start-of-image marker FF D8 and an end-of-image
 * marker FF D9, the bytes from the first start marker through the first end
 * marker are cut out, everything up to that end marker is dropped, and the
 * frame is sent on wrapped in a multipart part.
 */
module Mjpeg {
  import opened Wrappers

  newtype byte = b: int | 0 <= b < 256

  /** A two-byte JPEG marker. */
  datatype Marker = Marker(first: byte, second: byte)

  const StartOfImage: Marker := Marker(0xFF, 0xD8)
  const EndOfImage: Marker := Marker(0xFF, 0xD9)

  predicate MarkerAt(buf: seq<byte>, m: Marker, i: int)
  {
    0 <= i && i + 1 < |buf| && buf[i] == m.first && buf[i + 1] == m.second
  }

  /** Python's `m in buf`. */
  predicate Contains(buf: seq<byte>, m: Marker)
  {
    exists i | 0 <= i < |buf| :: MarkerAt(buf, m, i)
  }

  // ---------------------------------------------------------------------------
  // Marker search
  // ---------------------------------------------------------------------------

  function IndexFrom(buf: seq<byte>, m: Marker, k: nat): (r: Option<nat>)
    ensures r.None? ==> forall j :: k <= j ==> !MarkerAt(buf, m, j)
    ensures r.Some? ==> k <= r.value && MarkerAt(buf, m, r.value)
    ensures r.Some? ==> forall j :: k <= j < r.value ==> !MarkerAt(buf, m, j)
    decreases |buf| - k
  {
    if k + 1 >= |buf| then None
    else if MarkerAt(buf, m, k) then Some(k)
    else IndexFrom(buf, m, k + 1)
  }

  /** The first occurrence of a marker (Python's `buf.index(m)`), if any. */
  function IndexOf(buf: seq<byte>, m: Marker): (r: Option<nat>)
    ensures r.None? <==> !Contains(buf, m)
    ensures r.Some? ==> MarkerAt(buf, m, r.value)
    ensures r.Some? ==> forall j :: 0 <= j < r.value ==> !MarkerAt(buf, m, j)
  {
    IndexFrom(buf, m, 0)
  }

  /** Appending bytes does not move the first occurrence of a marker the prefix already holds. */
  lemma IndexOfPrefix(a: seq<byte>, b: seq<byte>, m: Marker)
    requires Contains(a, m)
    ensures IndexOf(a + b, m) == IndexOf(a, m)
  {
    var i := IndexOf(a, m).value;
    assert MarkerAt(a + b, m, i);
    forall j | 0 <= j < i
      ensures !MarkerAt(a + b, m, j)
    {
      assert !MarkerAt(a, m, j);
    }
  }

  /** Python's `buf[start:end]` for indices within the buffer: empty when start >= end. */
  function Slice(buf: seq<byte>, start: nat, end: nat): seq<byte>
    requires start <= |buf| && end <= |buf|
  {
    if start <= end then buf[start..end] else []
  }

  // ---------------------------------------------------------------------------
  // One cut, and the whole split
  // ---------------------------------------------------------------------------

  datatype Cut = Cut(frame: seq<byte>, rest: seq<byte>)

  /** One pass of the inner loop: the frame cut from `buf` and the new buffer, if both markers occur. */
  function NextFrame(buf: seq<byte>): (r: Option<Cut>)
    ensures r.None? <==> !(Contains(buf, StartOfImage) && Contains(buf, EndOfImage))
    ensures r.Some? ==> |r.value.rest| + 2 <= |buf|
  {
    var s := IndexOf(buf, StartOfImage);
    var e := IndexOf(buf, EndOfImage);
    if s.None? || e.None? then None
    else
      var start := s.value;
      var end := e.value + 2;
      Some(Cut(Slice(buf, start, end), buf[end..]))
  }

  /** A frame cut by the splitter: empty, or a start marker, then bytes without an end marker, then an end marker. */
  predicate FrameShaped(f: seq<byte>)
  {
    && MarkerAt(f, StartOfImage, 0)
    && MarkerAt(f, EndOfImage, |f| - 2)
    && forall j :: 0 <= j < |f| - 2 ==> !MarkerAt(f, EndOfImage, j)
  }

  /**
   * What one cut does. The buffer always loses everything through its first end
   * marker. If that end marker comes before the first start marker, the frame is
   * empty; otherwise the frame runs from the first start marker through the
   * first end marker.
   */
  lemma NextFrameCuts(buf: seq<byte>)
    requires Contains(buf, StartOfImage) && Contains(buf, EndOfImage)
    ensures var s, e := IndexOf(buf, StartOfImage).value, IndexOf(buf, EndOfImage).value;
            var cut := NextFrame(buf).value;
            && s != e
            && cut.rest == buf[e + 2..]
            && (e < s ==> cut.frame == [])
            && (s < e ==> cut.frame == buf[s..e + 2] && FrameShaped(cut.frame) && |cut.frame| >= 4)
  {
    var s, e := IndexOf(buf, StartOfImage).value, IndexOf(buf, EndOfImage).value;
    var f := NextFrame(buf).value.frame;
    assert s != e && s != e + 1 && e != s + 1;
    if s < e {
      assert f == buf[s..e + 2];
      forall j | 0 <= j < |f| - 2
        ensures !MarkerAt(f, EndOfImage, j)
      {
        assert !MarkerAt(buf, EndOfImage, s + j);
      }
    }
  }

  datatype Split = Split(frames: seq<seq<byte>>, rest: seq<byte>)

  /**
   * The frames the inner loop cuts from a buffer, and the buffer it leaves: when
   * it stops, the remaining buffer lacks one of the two markers.
   */
  function SplitFrames(buf: seq<byte>): (p: Split)
    ensures !(Contains(p.rest, StartOfImage) && Contains(p.rest, EndOfImage))
    ensures |p.rest| <= |buf|
    decreases |buf|
  {
    match NextFrame(buf)
    case None => Split([], buf)
    case Some(cut) =>
      var p := SplitFrames(cut.rest);
      Split([cut.frame] + p.frames, p.rest)
  }

  /** What the splitter leaves in the buffer is a tail of it: bytes are only ever dropped from the front. */
  lemma {:induction false} SplitLeavesTail(buf: seq<byte>)
    ensures var r := SplitFrames(buf).rest; r == buf[|buf| - |r|..]
    decreases |buf|
  {
    match NextFrame(buf)
    case None =>
    case Some(cut) =>
      NextFrameCuts(buf);
      SplitLeavesTail(cut.rest);
      var e := IndexOf(buf, EndOfImage).value + 2;
      var r := SplitFrames(buf).rest;
      assert cut.rest == buf[e..];
      assert cut.rest[|cut.rest| - |r|..] == buf[|buf| - |r|..];
  }

  /** Every frame the splitter emits is empty or shaped like a JPEG image. */
  lemma {:induction false} SplitFramesShaped(buf: seq<byte>)
    ensures forall f | f in SplitFrames(buf).frames :: f == [] || FrameShaped(f)
    decreases |buf|
  {
    match NextFrame(buf)
    case None =>
    case Some(cut) =>
      var s, e := IndexOf(buf, StartOfImage).value, IndexOf(buf, EndOfImage).value;
      NextFrameCuts(buf);
      SplitFramesShaped(cut.rest);
  }

  /** A cut that bytes already in the buffer allow is not changed by bytes arriving later. */
  lemma NextFrameAppend(a: seq<byte>, b: seq<byte>)
    requires NextFrame(a).Some?
    ensures NextFrame(a + b) == Some(Cut(NextFrame(a).value.frame, NextFrame(a).value.rest + b))
  {
    IndexOfPrefix(a, b, StartOfImage);
    IndexOfPrefix(a, b, EndOfImage);
    var e := IndexOf(a, EndOfImage).value + 2;
    var st := IndexOf(a, StartOfImage).value;
    assert (a + b)[e..] == a[e..] + b;
    assert Slice(a + b, st, e) == Slice(a, st, e) by {
      if st <= e {
        assert (a + b)[st..e] == a[st..e];
      }
    }
  }

  /**
   * Splitting is insensitive to how the bytes arrive: splitting a + b gives the
   * frames of a, then the frames of what a left over followed by b.
   */
  lemma {:induction false} SplitAppend(a: seq<byte>, b: seq<byte>)
    ensures var pa := SplitFrames(a);
            var pb := SplitFrames(pa.rest + b);
            SplitFrames(a + b) == Split(pa.frames + pb.frames, pb.rest)
    decreases |a|
  {
    var na := NextFrame(a);
    if na.None? {
      assert SplitFrames(a) == Split([], a);
      assert [] + SplitFrames(a + b).frames == SplitFrames(a + b).frames;
    } else {
      var cut := na.value;
      NextFrameAppend(a, b);
      SplitAppend(cut.rest, b);
      var pr := SplitFrames(cut.rest);
      var pb := SplitFrames(pr.rest + b);
      assert SplitFrames(a) == Split([cut.frame] + pr.frames, pr.rest);
      var q := SplitFrames(cut.rest + b);
      assert SplitFrames(a + b) == Split([cut.frame] + q.frames, q.rest);
      assert q == Split(pr.frames + pb.frames, pb.rest);
      ConsAppend(cut.frame, pr.frames, pb.frames);
    }
  }

  lemma ConsAppend<T>(x: T, p: seq<T>, q: seq<T>)
    ensures [x] + (p + q) == ([x] + p) + q
  {
  }

  lemma AppendAssoc<T>(p: seq<T>, q: seq<T>, r: seq<T>)
    ensures (p + q) + r == p + (q + r)
  {
  }

  lemma InitLast<T>(s: seq<T>)
    requires s != []
    ensures s[..|s| - 1] + [s[|s| - 1]] == s
  {
  }

  function Concat<T>(chunks: seq<seq<T>>): seq<T>
  {
    if chunks == [] then [] else Concat(chunks[..|chunks| - 1]) + chunks[|chunks| - 1]
  }

  /** A single complete image splits into itself, with nothing left over. */
  lemma SplitOneImage(f: seq<byte>)
    requires FrameShaped(f)
    ensures SplitFrames(f) == Split([f], [])
  {
    assert MarkerAt(f, StartOfImage, 0);
    assert MarkerAt(f, EndOfImage, |f| - 2);
    assert IndexOf(f, StartOfImage) == Some(0);
    assert IndexOf(f, EndOfImage) == Some(|f| - 2);
    assert f[0..|f|] == f;
    assert NextFrame(f) == Some(Cut(f, []));
    assert NextFrame([]).None?;
  }

  /**
   * Round trip: a stream made of complete images back to back splits into
   * exactly those images and leaves nothing behind.
   */
  lemma {:induction false} SplitImages(images: seq<seq<byte>>)
    requires forall f | f in images :: FrameShaped(f)
    ensures SplitFrames(Concat(images)) == Split(images, [])
  {
    if images == [] {
      assert NextFrame([]).None?;
    } else {
      var init, last := images[..|images| - 1], images[|images| - 1];
      assert last in images;
      assert forall f | f in init :: f in images;
      SplitImages(init);
      SplitAppend(Concat(init), last);
      SplitOneImage(last);
      assert Concat(images) == Concat(init) + last;
      assert [] + last == last;
      InitLast(images);
    }
  }

  // ---------------------------------------------------------------------------
  // Multipart wrapping
  // ---------------------------------------------------------------------------

  /** The bytes of an ASCII string. */
  function Ascii(s: string): seq<byte>
  {
    seq(|s|, i requires 0 <= i < |s| => (s[i] as int % 256) as byte)
  }

  const PartHeader: seq<byte> := Ascii("--frame\r\nContent-Type: image/jpeg\r\n\r\n")
  const Crlf: seq<byte> := Ascii("\r\n")

  /** The multipart part that carries one frame. */
  function Wrap(frame: seq<byte>): seq<byte>
  {
    PartHeader + frame + Crlf
  }

  /** Reads the frame back out of a multipart part. */
  function Unwrap(part: seq<byte>): Option<seq<byte>>
  {
    var h := |PartHeader|;
    if |part| >= h + |Crlf| && part[..h] == PartHeader && part[|part| - |Crlf|..] == Crlf
    then Some(part[h..|part| - |Crlf|])
    else None
  }

  lemma WrapRoundTrip(frame: seq<byte>)
    ensures Unwrap(Wrap(frame)) == Some(frame)
    ensures |Wrap(frame)| == |PartHeader| + |frame| + 2
  {
    var part := Wrap(frame);
    assert part[..|PartHeader|] == PartHeader;
    assert part[|part| - |Crlf|..] == Crlf;
    assert part[|PartHeader|..|part| - |Crlf|] == frame;
  }

  function WrapAll(frames: seq<seq<byte>>): (parts: seq<seq<byte>>)
    ensures |parts| == |frames|
    ensures forall k | 0 <= k < |frames| :: parts[k] == Wrap(frames[k])
  {
    if frames == [] then [] else [Wrap(frames[0])] + WrapAll(frames[1..])
  }

  // ---------------------------------------------------------------------------
  // The generator
  // ---------------------------------------------------------------------------

  /** How many received chunks are used: reading stops at the first empty one. */
  function Accepted(received: seq<seq<byte>>): (n: nat)
    ensures n <= |received|
    ensures n < |received| ==> |received[n]| == 0
    ensures forall j | 0 <= j < n :: |received[j]| > 0
  {
    if |received| == 0 || |received[0]| == 0 then 0 else 1 + Accepted(received[1..])
  }

  lemma {:induction false} WrapAllAppend(a: seq<seq<byte>>, b: seq<seq<byte>>)
    ensures WrapAll(a + b) == WrapAll(a) + WrapAll(b)
  {
    assert |WrapAll(a + b)| == |WrapAll(a) + WrapAll(b)|;
    forall k | 0 <= k < |a| + |b|
      ensures WrapAll(a + b)[k] == (WrapAll(a) + WrapAll(b))[k]
    {
      if k < |a| {
        assert (a + b)[k] == a[k];
      } else {
        assert (a + b)[k] == b[k - |a|];
      }
    }
  }

  /**
   * The inner loop of `generate` (lines 51-59): cuts every frame out of the
   * buffer, wrapping each as it goes, and returns the parts and the new buffer.
   */
  method CutFrames(buffer: seq<byte>) returns (parts: seq<seq<byte>>, rest: seq<byte>)
    ensures parts == WrapAll(SplitFrames(buffer).frames) && rest == SplitFrames(buffer).rest
  {
    parts, rest := [], buffer;
    while IndexOf(rest, StartOfImage).Some? && IndexOf(rest, EndOfImage).Some?
      invariant SplitFrames(rest).rest == SplitFrames(buffer).rest
      invariant parts + WrapAll(SplitFrames(rest).frames) == WrapAll(SplitFrames(buffer).frames)
      decreases |rest|
    {
      var start := IndexOf(rest, StartOfImage).value;
      var end := IndexOf(rest, EndOfImage).value + 2;
      var frame := Slice(rest, start, end);
      ghost var before := rest;
      rest := rest[end..];
      assert SplitFrames(before).frames == [frame] + SplitFrames(rest).frames;
      WrapAllAppend([frame], SplitFrames(rest).frames);
      assert WrapAll([frame]) == [Wrap(frame)];
      AppendAssoc(parts, [Wrap(frame)], WrapAll(SplitFrames(rest).frames));
      parts := parts + [Wrap(frame)];
    }
  }

  /**
   * `generate`, given the successive results of `recv`: the parts it yields
   * and the buffer it holds when the stream ends. The parts are exactly those
   * of splitting all accepted bytes at once, however they were chunked.
   */
  method Generate(received: seq<seq<byte>>) returns (parts: seq<seq<byte>>, buffer: seq<byte>)
    ensures var p := SplitFrames(Concat(received[..Accepted(received)]));
            parts == WrapAll(p.frames) && buffer == p.rest
    ensures !(Contains(buffer, StartOfImage) && Contains(buffer, EndOfImage))
  {
    parts, buffer := [], [];
    var i := 0;
    SplitNothing(received);
    while true
      invariant 0 <= i <= |received|
      invariant forall j | 0 <= j < i :: |received[j]| > 0
      invariant parts == WrapAll(SplitFrames(Concat(received[..i])).frames)
      invariant buffer == SplitFrames(Concat(received[..i])).rest
      decreases |received| - i
    {
      if i == |received| {
        break;
      }
      var data := received[i];
      if |data| == 0 {
        break;
      }
      StreamStep(received, i);
      buffer := buffer + data;
      var cut;
      cut, buffer := CutFrames(buffer);
      parts := parts + cut;
      i := i + 1;
    }
    AcceptedIs(received, i);
  }

  /** Receiving one more chunk adds the frames of the old leftover followed by that chunk. */
  lemma StreamStep(chunks: seq<seq<byte>>, i: nat)
    requires i < |chunks|
    ensures var p := SplitFrames(Concat(chunks[..i]));
            var q := SplitFrames(p.rest + chunks[i]);
            && WrapAll(SplitFrames(Concat(chunks[..i + 1])).frames) == WrapAll(p.frames) + WrapAll(q.frames)
            && SplitFrames(Concat(chunks[..i + 1])).rest == q.rest
  {
    var p := SplitFrames(Concat(chunks[..i]));
    var q := SplitFrames(p.rest + chunks[i]);
    ConcatSnoc(chunks, i);
    SplitAppend(Concat(chunks[..i]), chunks[i]);
    WrapAllAppend(p.frames, q.frames);
  }

  lemma SplitNothing(chunks: seq<seq<byte>>)
    ensures WrapAll(SplitFrames(Concat(chunks[..0])).frames) == [] && SplitFrames(Concat(chunks[..0])).rest == []
  {
    assert chunks[..0] == [];
    assert NextFrame([]).None?;
  }

  lemma ConcatSnoc<T>(chunks: seq<seq<T>>, i: nat)
    requires i < |chunks|
    ensures Concat(chunks[..i + 1]) == Concat(chunks[..i]) + chunks[i]
  {
    assert chunks[..i + 1][..i] == chunks[..i];
  }

  lemma {:induction false} AcceptedIs(received: seq<seq<byte>>, n: nat)
    requires n <= |received|
    requires forall j | 0 <= j < n :: |received[j]| > 0
    requires n < |received| ==> |received[n]| == 0
    ensures Accepted(received) == n
  {
    if n > 0 {
      AcceptedIs(received[1..], n - 1);
    }
  }
}
