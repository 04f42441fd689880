/**
  Sway's IPC stream: frames of a magic string, a length, a type and a payload, cut out of whatever the
  socket delivers.
 */
module SwayStream {

  type Byte = b: nat | b < 256

  const HEAD_BYTES: nat := 14
  const READ_BUFFER_MAX_BYTES: nat := 1024 * 1024
  const TWO_TO_THE_32: nat := 0x1_0000_0000

  /** "i3-ipc" */
  const MAGIC: seq<Byte> := [105, 51, 45, 105, 112, 99]

  datatype Frame = Frame(kind: nat, payload: seq<Byte>)

  predicate Sendable(frame: Frame) {
    frame.kind < TWO_TO_THE_32 && |frame.payload| < TWO_TO_THE_32
  }

  // ------------------------------------------------------------------ encoding

  /** A 32-bit number as the machine stores it, low byte first. */
  function Le32(n: nat): (bytes: seq<Byte>)
    ensures |bytes| == 4
  {
    [n % 256, n / 256 % 256, n / 256 / 256 % 256, n / 256 / 256 / 256 % 256]
  }

  function FromLe32(bytes: seq<Byte>): nat
    requires |bytes| == 4
  {
    (bytes[0] as nat) + 256 * ((bytes[1] as nat) + 256 * ((bytes[2] as nat) + 256 * (bytes[3] as nat)))
  }

  lemma Le32RoundTrip(n: nat)
    requires n < TWO_TO_THE_32
    ensures FromLe32(Le32(n)) == n
  {
    var a := n / 256;
    var b := a / 256;
    var c := b / 256;
    assert c < 256;
    assert n == n % 256 + 256 * a && a == a % 256 + 256 * b && b == b % 256 + 256 * c;
  }

  /** `writeMessage`; what does not fit 32 bits of the length is cut off. */
  function Encode(frame: Frame): seq<Byte> {
    MAGIC + Le32(|frame.payload|) + Le32(frame.kind) + frame.payload
  }

  /** A frame on the wire: `i3-ipc`, the payload's length and the type with their low bytes first, the payload. */
  lemma OnTheWire(payload: seq<Byte>)
    requires |payload| == 300
    ensures Encode(Frame(0x8000_0003, payload)) == [105, 51, 45, 105, 112, 99, 44, 1, 0, 0, 3, 0, 0, 128] + payload
  {
    assert Le32(300) == [44, 1, 0, 0] && Le32(0x8000_0003) == [3, 0, 0, 128];
  }

  function EncodeAll(frames: seq<Frame>): seq<Byte> {
    if frames == [] then [] else Encode(frames[0]) + EncodeAll(frames[1..])
  }

  // ------------------------------------------------------------------ decoding

  function PayloadLength(buf: seq<Byte>): nat
    requires |buf| >= HEAD_BYTES
  {
    FromLe32(buf[6..10])
  }

  function FrameAt(buf: seq<Byte>): Frame
    requires |buf| >= HEAD_BYTES && |buf| >= HEAD_BYTES + PayloadLength(buf)
  {
    Frame(FromLe32(buf[10..14]), buf[14..14 + PayloadLength(buf)])
  }

  predicate HasFrame(buf: seq<Byte>) {
    |buf| >= HEAD_BYTES && buf[..6] == MAGIC && |buf| >= HEAD_BYTES + PayloadLength(buf)
  }

  predicate Garbled(buf: seq<Byte>) {
    |buf| >= HEAD_BYTES && buf[..6] != MAGIC
  }

  function Frames(buf: seq<Byte>): seq<Frame>
    decreases |buf|
  {
    if HasFrame(buf) then [FrameAt(buf)] + Frames(buf[HEAD_BYTES + PayloadLength(buf)..]) else []
  }

  function Rest(buf: seq<Byte>): (rest: seq<Byte>)
    ensures !HasFrame(rest)
    decreases |buf|
  {
    if HasFrame(buf) then Rest(buf[HEAD_BYTES + PayloadLength(buf)..]) else buf
  }

  // ----------------------------------------------------------------- the stream

  /** What handling the n-th frame of a connection reports: did the tables change? */
  type Handler = (nat, Frame) -> bool

  predicate AnyChanged(handler: Handler, handled: nat, frames: seq<Frame>) {
    exists i :: 0 <= i < |frames| && handler(handled + i, frames[i])
  }

  predicate Changes(handler: Handler, handled: nat, buf: seq<Byte>) {
    AnyChanged(handler, handled, Frames(buf))
  }

  /** The listener is told only with less than a header left in the buffer. */
  predicate Tells(handler: Handler, handled: nat, buf: seq<Byte>) {
    Changes(handler, handled, buf) && |Rest(buf)| < HEAD_BYTES
  }

  function One(b: bool): nat {
    if b then 1 else 0
  }

  class Stream {
    var open: bool
    var buf: seq<Byte>
    var handled: seq<Frame>
    var notified: nat

    constructor ()
      ensures open && buf == [] && handled == [] && notified == 0
    {
      open, buf, handled, notified := true, [], [], 0;
    }

    /** `processMessages`.  A listener is told only when the loop runs out with less than a header left:
        with a whole header of an unfinished frame in the buffer the method returns before it tells. */
    method ProcessMessages(handler: Handler)
      modifies this
      ensures buf == Rest(old(buf))
      ensures handled == old(handled) + Frames(old(buf))
      ensures open == (old(open) && !Garbled(Rest(old(buf))))
      ensures notified == old(notified) + One(Tells(handler, |old(handled)|, old(buf)))
    {
      hide Frames, Rest, FrameAt, PayloadLength;
      ghost var before, whole := handled, buf;
      ghost var done: seq<Frame> := [];
      var changed := false;
      while |buf| >= HEAD_BYTES
        invariant handled == before + done
        invariant done + Frames(buf) == Frames(whole) && Rest(buf) == Rest(whole)
        invariant changed == AnyChanged(handler, |before|, done)
        invariant open == old(open) && notified == old(notified)
        decreases |buf|
      {
        if buf[..6] != MAGIC {
          open := false;
          NoFrame(buf);
          assert done + [] == done;
          return;
        }
        var total := HEAD_BYTES + PayloadLength(buf);
        if |buf| < total {
          NoFrame(buf);
          assert done + [] == done;
          return;
        }
        var frame := FrameAt(buf);
        FirstFrame(buf);
        assert done + ([frame] + Frames(buf[total..])) == done + [frame] + Frames(buf[total..]);
        buf := buf[total..];
        var now := handler(|handled|, frame);
        OneMoreFrame(handler, |before|, done, frame);
        changed := changed || now;
        handled := handled + [frame];
        done := done + [frame];
      }
      NoFrame(buf);
      assert done + [] == done;
      if changed { notified := notified + 1; }
    }

    /** `drainEvents`: everything the socket has is buffered first; above the cap the connection is given
        up.  Within it this is one more delivery of a `Run`. */
    method DrainEvents(chunks: seq<seq<Byte>>, handler: Handler)
      modifies this
      ensures WithinCap(old(buf), chunks) ==>
        && buf == Rest(old(buf) + Joined(chunks))
        && handled == old(handled) + Frames(old(buf) + Joined(chunks))
        && Run(old(buf), [chunks]) == (Frames(old(buf) + Joined(chunks)), buf)
        && open == (old(open) && !Garbled(buf))
        && notified == old(notified) + One(Tells(handler, |old(handled)|, old(buf) + Joined(chunks)))
      ensures !WithinCap(old(buf), chunks) ==> !open && buf == [] && handled == old(handled) && notified == old(notified)
    {
      hide Frames, Rest, Run, Tells;
      RunOnce(buf, chunks);
      var i := 0;
      assert chunks[0..] == chunks && old(buf) + [] == old(buf);
      while i < |chunks|
        invariant 0 <= i <= |chunks| && handled == old(handled) && notified == old(notified) && open == old(open)
        invariant buf + Joined(chunks[i..]) == old(buf) + Joined(chunks)
        invariant WithinCap(old(buf), chunks) == WithinCap(buf, chunks[i..])
      {
        assert chunks[i..][0] == chunks[i] && chunks[i..][1..] == chunks[i + 1..];
        assert buf + Joined(chunks[i..]) == (buf + chunks[i]) + Joined(chunks[i + 1..]);
        buf := buf + chunks[i];
        if |buf| > READ_BUFFER_MAX_BYTES {
          open, buf := false, [];
          return;
        }
        i := i + 1;
      }
      assert buf + [] == buf;
      ProcessMessages(handler);
    }

    /** Drain after drain, while the connection is open. */
    method DrainAll(deliveries: seq<seq<seq<Byte>>>, handler: Handler)
      modifies this
      ensures old(open) && Flows(old(buf), deliveries) ==>
        && open
        && buf == Run(old(buf), deliveries).1
        && handled == old(handled) + Run(old(buf), deliveries).0
        && notified == old(notified) + Told(Reports(handler, |old(handled)|, old(buf), deliveries))
    {
      hide Frames, Rest, Run, Tells, Joined, WithinCap, Garbled;
      ghost var start, before, told := buf, handled, notified;
      NothingRun(buf);
      assert deliveries[..0] == [] && before + [] == before;
      var i := 0;
      while i < |deliveries| && open
        invariant 0 <= i <= |deliveries|
        invariant old(open) && Flows(start, deliveries) ==>
          && open
          && buf == Run(start, deliveries[..i]).1
          && handled == before + Run(start, deliveries[..i]).0
          && notified == told + Told(Reports(handler, |before|, start, deliveries[..i]))
      {
        if old(open) && Flows(start, deliveries) {
          OneMoreDrain(handler, |before|, start, deliveries, i);
          ToldOnceMore(Reports(handler, |before|, start, deliveries[..i]), ReportOf(handler, |handled|, buf + Joined(deliveries[i])));
          assert before + Run(start, deliveries[..i]).0 + Frames(buf + Joined(deliveries[i]))
              == before + (Run(start, deliveries[..i]).0 + Frames(buf + Joined(deliveries[i])));
        }
        DrainEvents(deliveries[i], handler);
        i := i + 1;
      }
      assert deliveries[..|deliveries|] == deliveries;
    }
  }

  lemma NoFrame(buf: seq<Byte>)
    requires !HasFrame(buf)
    ensures Frames(buf) == [] && Rest(buf) == buf
  {
  }

  lemma FirstFrame(buf: seq<Byte>)
    requires HasFrame(buf)
    ensures Frames(buf) == [FrameAt(buf)] + Frames(buf[HEAD_BYTES + PayloadLength(buf)..])
    ensures Rest(buf) == Rest(buf[HEAD_BYTES + PayloadLength(buf)..])
  {
  }

  lemma OneMoreFrame(handler: Handler, handled: nat, done: seq<Frame>, frame: Frame)
    ensures AnyChanged(handler, handled, done + [frame]) <==>
            AnyChanged(handler, handled, done) || handler(handled + |done|, frame)
  {
    var all := done + [frame];
    assert all[|done|] == frame;
    if i :| 0 <= i < |done| && handler(handled + i, done[i]) {
      assert all[i] == done[i];
    }
  }

  function Joined(chunks: seq<seq<Byte>>): seq<Byte> {
    if chunks == [] then [] else chunks[0] + Joined(chunks[1..])
  }

  predicate WithinCap(buf: seq<Byte>, chunks: seq<seq<Byte>>)
    decreases |chunks|
  {
    chunks == [] || (|buf + chunks[0]| <= READ_BUFFER_MAX_BYTES && WithinCap(buf + chunks[0], chunks[1..]))
  }

  /** The cap is a mebibyte for all that one drain leaves in the buffer before it cuts frames. */
  lemma {:induction false} WithinCapSaid(buf: seq<Byte>, chunks: seq<seq<Byte>>)
    ensures WithinCap(buf, chunks) <==> chunks == [] || |buf| + |Joined(chunks)| <= 1_048_576
    decreases |chunks|
  {
    if chunks != [] {
      WithinCapSaid(buf + chunks[0], chunks[1..]);
    }
  }

  // ----------------------------------------------------- encoding and decoding

  lemma EncodedHead(frame: Frame, more: seq<Byte>)
    requires Sendable(frame)
    ensures var buf := Encode(frame) + more;
            && |buf| >= HEAD_BYTES && buf[..6] == MAGIC
            && PayloadLength(buf) == |frame.payload|
            && FromLe32(buf[10..14]) == frame.kind
  {
    var buf := Encode(frame) + more;
    assert buf[6..10] == Le32(|frame.payload|);
    assert buf[10..14] == Le32(frame.kind);
    Le32RoundTrip(|frame.payload|);
    Le32RoundTrip(frame.kind);
  }

  lemma EncodedLength(frame: Frame)
    ensures |Encode(frame)| == HEAD_BYTES + |frame.payload|
  {
  }

  lemma EncodedFrame(frame: Frame, more: seq<Byte>)
    requires Sendable(frame)
    ensures Frames(Encode(frame) + more) == [frame] + Frames(more)
    ensures Rest(Encode(frame) + more) == Rest(more)
  {
    hide FromLe32, PayloadLength, Encode;
    EncodedHead(frame, more);
    var buf := Encode(frame) + more;
    EncodedTail(frame, more);
    assert FrameAt(buf) == frame;
  }

  lemma EncodedTail(frame: Frame, more: seq<Byte>)
    ensures var buf, n := Encode(frame) + more, |frame.payload|;
            |buf| >= 14 + n && buf[14..14 + n] == frame.payload && buf[14 + n..] == more
  {
  }

  predicate ProperPrefix(part: seq<Byte>, whole: seq<Byte>) {
    |part| < |whole| && part == whole[..|part|]
  }

  /** A frame that has not arrived completely is neither decoded nor mistaken for garbage. */
  lemma PartialFrameWaits(part: seq<Byte>, next: Frame)
    requires Sendable(next) && ProperPrefix(part, Encode(next))
    ensures Frames(part) == [] && Rest(part) == part && !Garbled(part)
  {
    var whole := Encode(next);
    EncodedHead(next, []);
    assert whole + [] == whole;
    if |part| >= HEAD_BYTES {
      assert part[..6] == whole[..6] && part[6..10] == whole[6..10];
    }
  }

  lemma EncodeAllCons(frames: seq<Frame>, part: seq<Byte>)
    requires frames != []
    ensures EncodeAll(frames) + part == Encode(frames[0]) + (EncodeAll(frames[1..]) + part)
  {
    hide Encode;
  }

  lemma {:induction false} DecodeAll(frames: seq<Frame>, part: seq<Byte>, next: Frame)
    requires forall i :: 0 <= i < |frames| ==> Sendable(frames[i])
    requires Sendable(next) && ProperPrefix(part, Encode(next))
    ensures Frames(EncodeAll(frames) + part) == frames
    ensures Rest(EncodeAll(frames) + part) == part
    decreases |frames|
  {
    if frames == [] {
      hide Encode, Frames, Rest;
      PartialFrameWaits(part, next);
      assert EncodeAll(frames) + part == part;
    } else {
      hide Encode, EncodeAll, Frames, Rest;
      DecodeAll(frames[1..], part, next);
      EncodedFrame(frames[0], EncodeAll(frames[1..]) + part);
      EncodeAllCons(frames, part);
      assert frames == [frames[0]] + frames[1..];
    }
  }

  // ------------------------------------------------------------ split deliveries

  lemma FrameStays(buf: seq<Byte>, more: seq<Byte>)
    requires HasFrame(buf)
    ensures HasFrame(buf + more) && FrameAt(buf + more) == FrameAt(buf)
    ensures PayloadLength(buf + more) == PayloadLength(buf)
    ensures (buf + more)[HEAD_BYTES + PayloadLength(buf)..] == buf[HEAD_BYTES + PayloadLength(buf)..] + more
  {
    hide FromLe32;
    var all := buf + more;
    assert all[..6] == buf[..6] && all[6..10] == buf[6..10] && all[10..14] == buf[10..14];
    assert all[14..14 + PayloadLength(buf)] == buf[14..14 + PayloadLength(buf)];
  }

  /** Decoding may stop anywhere and resume with what was left. */
  lemma {:induction false} DecodeResumes(buf: seq<Byte>, more: seq<Byte>)
    ensures Frames(buf + more) == Frames(buf) + Frames(Rest(buf) + more)
    ensures Rest(buf + more) == Rest(Rest(buf) + more)
    decreases |buf|
  {
    if HasFrame(buf) {
      hide HasFrame, FrameAt, PayloadLength;
      FrameStays(buf, more);
      DecodeResumes(buf[HEAD_BYTES + PayloadLength(buf)..], more);
    } else {
      assert [] + Frames(buf + more) == Frames(buf + more);
    }
  }

  /** One `drainEvents` after another, each with its own reads. */
  function Run(buf: seq<Byte>, deliveries: seq<seq<seq<Byte>>>): (seq<Frame>, seq<Byte>)
    decreases |deliveries|
  {
    if deliveries == [] then ([], buf)
    else
      var filled := buf + Joined(deliveries[0]);
      var later := Run(Rest(filled), deliveries[1..]);
      (Frames(filled) + later.0, later.1)
  }

  lemma RunOnce(buf: seq<Byte>, chunks: seq<seq<Byte>>)
    ensures Run(buf, [chunks]) == (Frames(buf + Joined(chunks)), Rest(buf + Joined(chunks)))
  {
    hide Frames, Rest, Joined;
    assert [chunks][1..] == [];
    assert Frames(buf + Joined(chunks)) + [] == Frames(buf + Joined(chunks));
  }

  /** A run goes on with the next delivery where it stopped. */
  lemma {:induction false} RunGoesOn(buf: seq<Byte>, deliveries: seq<seq<seq<Byte>>>, chunks: seq<seq<Byte>>)
    ensures var before := Run(buf, deliveries);
            var step := Run(before.1, [chunks]);
            Run(buf, deliveries + [chunks]) == (before.0 + step.0, step.1)
    decreases |deliveries|
  {
    if deliveries != [] {
      hide Frames, Rest, Joined;
      assert (deliveries + [chunks])[1..] == deliveries[1..] + [chunks];
      var filled := buf + Joined(deliveries[0]);
      RunGoesOn(Rest(filled), deliveries[1..], chunks);
      var later := Run(Rest(filled), deliveries[1..]);
      var step := Run(later.1, [chunks]);
      assert Frames(filled) + (later.0 + step.0) == Frames(filled) + later.0 + step.0;
    } else {
      var step := Run(buf, [chunks]);
      assert deliveries + [chunks] == [chunks] && [] + step.0 == step.0;
    }
  }

  lemma NothingRun(buf: seq<Byte>)
    ensures Run(buf, []) == ([], buf)
  {
  }

  // ----------------------------------------------------- what a listener misses

  /** What is in the buffer when drain `k` of a run gets to its frames. */
  function FilledAt(buf: seq<Byte>, deliveries: seq<seq<seq<Byte>>>, k: nat): seq<Byte>
    requires k < |deliveries|
  {
    Run(buf, deliveries[..k]).1 + Joined(deliveries[k])
  }

  predicate Flows(buf: seq<Byte>, deliveries: seq<seq<seq<Byte>>>) {
    forall k :: 0 <= k < |deliveries| ==>
      WithinCap(Run(buf, deliveries[..k]).1, deliveries[k]) && !Garbled(Rest(FilledAt(buf, deliveries, k)))
  }

  /** What one drain did: whether the tables changed, and whether the listener was told. */
  datatype Report = Report(changed: bool, told: bool)

  function ReportOf(handler: Handler, handled: nat, buf: seq<Byte>): Report {
    Report(Changes(handler, handled, buf), Tells(handler, handled, buf))
  }

  function ReportAt(handler: Handler, handled: nat, buf: seq<Byte>, deliveries: seq<seq<seq<Byte>>>, k: nat): Report
    requires k < |deliveries|
  {
    ReportOf(handler, handled + |Run(buf, deliveries[..k]).0|, FilledAt(buf, deliveries, k))
  }

  function Reports(handler: Handler, handled: nat, buf: seq<Byte>, deliveries: seq<seq<seq<Byte>>>): (reports: seq<Report>)
    ensures |reports| == |deliveries|
  {
    if deliveries == [] then []
    else
      var n := |deliveries| - 1;
      Reports(handler, handled, buf, deliveries[..n]) + [ReportAt(handler, handled, buf, deliveries, n)]
  }

  function Told(reports: seq<Report>): nat {
    if reports == [] then 0 else Told(reports[..|reports| - 1]) + One(reports[|reports| - 1].told)
  }

  /** The tables hold a change that came after the last time the listener was told. */
  predicate Behind(reports: seq<Report>) {
    if reports == [] then false
    else
      var n := |reports| - 1;
      !reports[n].told && (reports[n].changed || Behind(reports[..n]))
  }

  lemma OneMoreDrain(handler: Handler, handled: nat, buf: seq<Byte>, deliveries: seq<seq<seq<Byte>>>, k: nat)
    requires k < |deliveries|
    ensures var before, filled := Run(buf, deliveries[..k]), FilledAt(buf, deliveries, k);
            && Run(buf, deliveries[..k + 1]) == (before.0 + Frames(filled), Rest(filled))
            && Reports(handler, handled, buf, deliveries[..k + 1])
               == Reports(handler, handled, buf, deliveries[..k]) + [ReportOf(handler, handled + |before.0|, filled)]
  {
    hide Frames, Rest, Run, ReportOf, Joined;
    RunGoesOn(buf, deliveries[..k], deliveries[k]);
    RunOnce(Run(buf, deliveries[..k]).1, deliveries[k]);
    assert deliveries[..k] + [deliveries[k]] == deliveries[..k + 1];
    assert deliveries[..k + 1][..k] == deliveries[..k];
  }

  lemma ToldOnceMore(reports: seq<Report>, report: Report)
    ensures Told(reports + [report]) == Told(reports) + One(report.told)
  {
    assert (reports + [report])[..|reports|] == reports;
  }

  lemma {:induction false} ReportsAre(handler: Handler, handled: nat, buf: seq<Byte>, deliveries: seq<seq<seq<Byte>>>, k: nat)
    requires k < |deliveries|
    ensures Reports(handler, handled, buf, deliveries)[k] == ReportAt(handler, handled, buf, deliveries, k)
    decreases |deliveries|
  {
    hide ReportOf, Run;
    var n := |deliveries| - 1;
    if k < n {
      ReportsAre(handler, handled, buf, deliveries[..n], k);
      assert deliveries[..n][..k] == deliveries[..k];
    }
  }

  /** Drain `k` is the last one with a change, and the listener was not told of it. */
  predicate MissedLast(reports: seq<Report>, k: nat)
    requires k < |reports|
  {
    reports[k].changed && !reports[k].told && forall j :: k < j < |reports| ==> !reports[j].changed
  }

  predicate Honest(reports: seq<Report>) {
    forall k :: 0 <= k < |reports| ==> reports[k].told ==> reports[k].changed
  }

  lemma {:induction false} BehindMissedLast(reports: seq<Report>)
    requires Honest(reports)
    ensures Behind(reports) <==> exists k :: 0 <= k < |reports| && MissedLast(reports, k)
    decreases |reports|
  {
    if reports != [] {
      var n := |reports| - 1;
      var front := reports[..n];
      BehindMissedLast(front);
      if k :| 0 <= k < n && MissedLast(front, k) && !reports[n].changed {
        assert MissedLast(reports, k);
      }
      if k :| 0 <= k < n && MissedLast(reports, k) {
        assert MissedLast(front, k);
      }
      if reports[n].changed && !reports[n].told {
        assert MissedLast(reports, n);
      }
    }
  }

  /** The last drain with a change left a header or more in the buffer. */
  predicate LeftAHeader(handler: Handler, handled: nat, buf: seq<Byte>, deliveries: seq<seq<seq<Byte>>>, k: nat)
    requires k < |deliveries|
  {
    && ReportAt(handler, handled, buf, deliveries, k).changed
    && |Run(buf, deliveries[..k + 1]).1| >= HEAD_BYTES
    && forall j :: k < j < |deliveries| ==> !ReportAt(handler, handled, buf, deliveries, j).changed
  }

  /** After any run a listener misses a change exactly when the last drain that had one ended with a header or
      more in the buffer: no later drain makes up for it without a change of its own. */
  lemma BehindExactlyWhen(handler: Handler, handled: nat, buf: seq<Byte>, deliveries: seq<seq<seq<Byte>>>)
    ensures Behind(Reports(handler, handled, buf, deliveries))
            <==> exists k :: 0 <= k < |deliveries| && LeftAHeader(handler, handled, buf, deliveries, k)
  {
    hide Behind, Reports, Run, Changes, Frames, Rest, Joined, FilledAt;
    var reports := Reports(handler, handled, buf, deliveries);
    forall k | 0 <= k < |deliveries|
      ensures reports[k] == ReportAt(handler, handled, buf, deliveries, k)
      ensures reports[k].told <==> reports[k].changed && |Run(buf, deliveries[..k + 1]).1| < HEAD_BYTES
    {
      ReportsAre(handler, handled, buf, deliveries, k);
      OneMoreDrain(handler, handled, buf, deliveries, k);
    }
    BehindMissedLast(reports);
    forall k | 0 <= k < |deliveries|
      ensures MissedLast(reports, k) <==> LeftAHeader(handler, handled, buf, deliveries, k)
    {
    }
  }

  /** Over two runs, one after the other: whoever is behind stays behind until a drain with a change of its
      own is told. */
  lemma {:induction false} BehindUntilTold(before: seq<Report>, after: seq<Report>)
    requires Behind(before)
    ensures Behind(before + after) || exists k :: 0 <= k < |after| && after[k].told
    decreases |after|
  {
    if after == [] {
      assert before + after == before;
    } else {
      var n := |after| - 1;
      BehindUntilTold(before, after[..n]);
      assert (before + after)[..|before + after| - 1] == before + after[..n];
    }
  }

  function Delivered(deliveries: seq<seq<seq<Byte>>>): seq<Byte> {
    if deliveries == [] then [] else Joined(deliveries[0]) + Delivered(deliveries[1..])
  }

  lemma {:induction false} RunDecodesTheStream(buf: seq<Byte>, deliveries: seq<seq<seq<Byte>>>)
    requires !HasFrame(buf)
    ensures Run(buf, deliveries) == (Frames(buf + Delivered(deliveries)), Rest(buf + Delivered(deliveries)))
    decreases |deliveries|
  {
    hide HasFrame, Frames, Rest, Joined;
    NoFrame(buf);
    if deliveries == [] {
      assert buf + Delivered(deliveries) == buf;
    } else {
      var filled, later := buf + Joined(deliveries[0]), Delivered(deliveries[1..]);
      RunDecodesTheStream(Rest(filled), deliveries[1..]);
      DecodeResumes(filled, later);
      assert buf + Delivered(deliveries) == filled + later;
    }
  }

  /** However the encoded frames are split into reads and drains, exactly these frames come out, in order,
      and a proper prefix of the frame still under way is kept. */
  lemma EveryFrameArrivesOnce(frames: seq<Frame>, part: seq<Byte>, next: Frame, deliveries: seq<seq<seq<Byte>>>)
    requires forall i :: 0 <= i < |frames| ==> Sendable(frames[i])
    requires Sendable(next) && ProperPrefix(part, Encode(next))
    requires Delivered(deliveries) == EncodeAll(frames) + part
    ensures Run([], deliveries) == (frames, part)
  {
    RunDecodesTheStream([], deliveries);
    assert [] + Delivered(deliveries) == Delivered(deliveries);
    DecodeAll(frames, part, next);
  }

  /** A change is not always told: the header of a following frame is enough to lose it. */
  lemma AChangeCanGoUntold(handler: Handler, frame: Frame, next: Frame)
    requires Sendable(frame) && Sendable(next) && next.payload != [] && handler(0, frame)
    ensures var buf := Encode(frame) + Encode(next)[..HEAD_BYTES];
            AnyChanged(handler, 0, Frames(buf)) && |Rest(buf)| >= HEAD_BYTES
  {
    var part := Encode(next)[..HEAD_BYTES];
    hide Encode, Frames, Rest;
    EncodedHead(next, []);
    EncodedLength(next);
    PartialFrameWaits(part, next);
    EncodedFrame(frame, part);
    assert ([frame] + [])[0] == frame;
  }

  lemma OneChunk(chunk: seq<Byte>)
    ensures Joined([chunk]) == chunk
  {
    assert [chunk][1..] == [];
    assert chunk + [] == chunk;
  }

  lemma OnlyFrame(handler: Handler, handled: nat, frame: Frame)
    ensures AnyChanged(handler, handled, [frame]) == handler(handled, frame)
  {
    assert [frame][0] == frame;
  }

  /** The run: a frame that changes the tables comes with the header of another one, whose payload follows. When
      all has been handled and nothing is left, the listener still has not been told. */
  lemma AChangeStaysUntold(handler: Handler, frame: Frame, next: Frame)
    requires Sendable(frame) && Sendable(next) && next.payload != [] && handler(0, frame) && !handler(1, next)
    ensures var head, tail := Encode(next)[..HEAD_BYTES], Encode(next)[HEAD_BYTES..];
            var run := [[Encode(frame) + head], [tail]];
            Run([], run) == ([frame, next], []) && Behind(Reports(handler, 0, [], run))
  {
    hide Encode, Frames, Rest, Run, Behind, Reports, Joined, AnyChanged;
    var empty: seq<Byte> := [];
    EncodedLength(next);
    var head, tail := Encode(next)[..HEAD_BYTES], Encode(next)[HEAD_BYTES..];
    var first, second := [Encode(frame) + head], [tail];
    var run := [first, second];
    OneChunk(Encode(frame) + head);
    OneChunk(tail);
    // the first drain
    assert run[..0] == [] && run[..1] == [first] && run[..2] == run;
    NothingRun(empty);
    assert empty + (Encode(frame) + head) == Encode(frame) + head;
    EncodedFrame(frame, head);
    PartialFrameWaits(head, next);
    assert [frame] + [] == [frame] && empty + (Encode(frame) + head) == Encode(frame) + head;
    var none: seq<Frame> := [];
    assert none + [frame] == [frame];
    OneMoreDrain(handler, 0, empty, run, 0);
    OnlyFrame(handler, 0, frame);
    assert Run(empty, run[..1]) == ([frame], head);
    // the second drain
    assert head + tail == Encode(next) + empty;
    EncodedFrame(next, empty);
    NoFrame(empty);
    assert [next] + [] == [next];
    OneMoreDrain(handler, 0, empty, run, 1);
    OnlyFrame(handler, 1, next);
    assert Run(empty, run) == ([frame] + [next], empty) && [frame] + [next] == [frame, next];
    assert LeftAHeader(handler, 0, empty, run, 0);
    BehindExactlyWhen(handler, 0, empty, run);
  }

  /** In terms of what was sent: listeners are told exactly when some frame changed the tables and fewer
      than fourteen bytes of the next frame have arrived. */
  lemma ToldExactlyWhen(handler: Handler, handled: nat, frames: seq<Frame>, part: seq<Byte>, next: Frame)
    requires forall i :: 0 <= i < |frames| ==> Sendable(frames[i])
    requires Sendable(next) && ProperPrefix(part, Encode(next))
    ensures var buf := EncodeAll(frames) + part;
            (AnyChanged(handler, handled, Frames(buf)) && |Rest(buf)| < HEAD_BYTES) <==>
            AnyChanged(handler, handled, frames) && |part| < HEAD_BYTES
  {
    hide Frames, Rest, EncodeAll, Encode;
    DecodeAll(frames, part, next);
  }
}
