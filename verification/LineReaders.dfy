/**
  Line framing of the compositor event sockets.

  Three readers cut the same kind of byte stream into lines, each with its own loop: niri scans
  byte by byte, Hyprland jumps from newline to newline and drops the consumed prefix once, mango
  erases every line as it goes.  What arrives in one read is arbitrary.
 */
module LineReaders {

  const READ_BUFFER_MAX_BYTES: nat := 1024 * 1024

  // ------------------------------------------------------------ cutting lines

  predicate NewlineFree(s: string) {
    forall i :: 0 <= i < |s| ==> s[i] != '\n'
  }

  /** The complete lines of a stream, without their newlines, and what follows the last newline. */
  datatype Cut = Cut(lines: seq<string>, rest: string)

  function Push(cut: Cut, ch: char): Cut {
    if ch == '\n' then Cut(cut.lines + [cut.rest], "") else Cut(cut.lines, cut.rest + [ch])
  }

  function CutOf(s: string): Cut {
    if s == "" then Cut([], "") else Push(CutOf(s[..|s| - 1]), s[|s| - 1])
  }

  function Unlines(lines: seq<string>): string {
    if lines == [] then "" else Unlines(lines[..|lines| - 1]) + lines[|lines| - 1] + ['\n']
  }

  lemma UnlinesSnoc(lines: seq<string>, line: string)
    ensures Unlines(lines + [line]) == Unlines(lines) + line + ['\n']
  {
    assert (lines + [line])[..|lines|] == lines;
  }

  /** The lines and the rest make up the stream, and none of them holds a newline. */
  ghost predicate Faithful(cut: Cut, s: string) {
    && Unlines(cut.lines) + cut.rest == s
    && NewlineFree(cut.rest)
    && forall i :: 0 <= i < |cut.lines| ==> NewlineFree(cut.lines[i])
  }

  lemma PushIsFaithful(cut: Cut, s: string, ch: char)
    requires Faithful(cut, s)
    ensures Faithful(Push(cut, ch), s + [ch])
  {
    hide Unlines;
    if ch == '\n' {
      UnlinesSnoc(cut.lines, cut.rest);
      assert Unlines(cut.lines) + cut.rest + ['\n'] + "" == s + [ch];
    } else {
      assert Unlines(cut.lines) + (cut.rest + [ch]) == s + [ch];
    }
  }

  /** Cutting loses nothing and leaves no newline behind ... */
  lemma {:induction false} CutIsFaithful(s: string)
    ensures Faithful(CutOf(s), s)
    decreases |s|
  {
    if s != "" {
      CutIsFaithful(s[..|s| - 1]);
      PushIsFaithful(CutOf(s[..|s| - 1]), s[..|s| - 1], s[|s| - 1]);
      assert s[..|s| - 1] + [s[|s| - 1]] == s;
    }
  }

  lemma CutSnoc(s: string, ch: char)
    ensures CutOf(s + [ch]) == Push(CutOf(s), ch)
  {
    assert (s + [ch])[..|s|] == s;
  }

  lemma {:induction false} CutWithoutNewline(s: string, more: string)
    requires NewlineFree(more)
    ensures CutOf(s + more) == Cut(CutOf(s).lines, CutOf(s).rest + more)
    decreases |more|
  {
    hide CutOf;
    if more == "" {
      assert s + more == s;
      assert CutOf(s).rest + more == CutOf(s).rest;
    } else {
      var front, last := more[..|more| - 1], more[|more| - 1];
      CutWithoutNewline(s, front);
      CutSnoc(s + front, last);
      assert s + more == s + front + [last];
      assert CutOf(s).rest + more == CutOf(s).rest + front + [last];
    }
  }

  lemma CutOneLine(s: string, line: string)
    requires NewlineFree(line)
    ensures CutOf(s + line + ['\n']) == Cut(CutOf(s).lines + [CutOf(s).rest + line], "")
  {
    CutWithoutNewline(s, line);
    assert (s + line + ['\n'])[..|s + line|] == s + line;
  }

  lemma CutOfPlain(s: string)
    requires NewlineFree(s)
    ensures CutOf(s) == Cut([], s)
  {
    CutWithoutNewline("", s);
    assert "" + s == s;
  }

  /** ... and it is the only faithful cut. */
  lemma {:induction false} FaithfulCutIsUnique(cut: Cut, s: string)
    requires Faithful(cut, s)
    ensures CutOf(s) == cut
    decreases |cut.lines|
  {
    hide CutOf, Unlines, NewlineFree;
    if cut.lines == [] {
      assert Unlines(cut.lines) == "" by {
        NoLines();
      }
      assert "" + cut.rest == cut.rest;
      CutOfPlain(s);
    } else {
      var front, last := cut.lines[..|cut.lines| - 1], cut.lines[|cut.lines| - 1];
      UnlinesSnoc(front, last);
      assert front + [last] == cut.lines && "" + last == last && "" + cut.rest == cut.rest;
      NothingIsNewlineFree();
      assert Unlines(front) + "" == Unlines(front);
      FaithfulCutIsUnique(Cut(front, ""), Unlines(front));
      CutOneLine(Unlines(front), last);
      CutWithoutNewline(Unlines(cut.lines), cut.rest);
    }
  }

  lemma NoLines()
    ensures Unlines([]) == ""
  {
  }

  lemma NothingIsNewlineFree()
    ensures NewlineFree("")
  {
  }

  /** Cutting may stop anywhere and resume with the rest. */
  lemma {:induction false} CutResumes(s: string, more: string)
    ensures CutOf(s + more).lines == CutOf(s).lines + CutOf(CutOf(s).rest + more).lines
    ensures CutOf(s + more).rest == CutOf(CutOf(s).rest + more).rest
    decreases |more|
  {
    var rest := CutOf(s).rest;
    if more == "" {
      CutIsFaithful(s);
      CutOfPlain(rest);
      assert s + more == s && rest + more == rest;
    } else {
      var front, last := more[..|more| - 1], more[|more| - 1];
      CutResumes(s, front);
      assert (s + more)[..|s + more| - 1] == s + front;
      assert (rest + more)[..|rest + more| - 1] == rest + front;
    }
  }

  // -------------------------------------------------------- what is dispatched

  datatype Reader = Niri | Hyprland | Mango

  function StripCr(line: string): string {
    if line != "" && line[|line| - 1] == '\r' then line[..|line| - 1] else line
  }

  /** The messages one complete line gives rise to. */
  function Message(reader: Reader, line: string): seq<string> {
    match reader
    case Niri => if StripCr(line) == "" then [] else [StripCr(line)]
    case Hyprland => if line == "" then [] else [line]
    case Mango => [line]
  }

  /** Niri's reader takes one trailing carriage return off and passes over empty lines, Hyprland's passes over empty
      lines, mango's over none. */
  lemma MessageSaid(line: string)
    ensures line != "" && line[|line| - 1] != '\r' ==> Message(Niri, line) == [line]
    ensures line != "" ==> Message(Niri, line + ['\r']) == [line] && Message(Hyprland, line) == [line]
    ensures Message(Niri, "") == Message(Niri, ['\r']) == Message(Hyprland, "") == []
    ensures Message(Mango, line) == [line]
  {
    assert (line + ['\r'])[..|line|] == line;
  }

  function Messages(reader: Reader, lines: seq<string>): seq<string> {
    if lines == [] then []
    else Messages(reader, lines[..|lines| - 1]) + Message(reader, lines[|lines| - 1])
  }

  lemma {:induction false} MessagesConcat(reader: Reader, a: seq<string>, b: seq<string>)
    ensures Messages(reader, a + b) == Messages(reader, a) + Messages(reader, b)
    decreases |b|
  {
    if b == [] {
      assert a + b == a;
    } else {
      assert (a + b)[..|a + b| - 1] == a + b[..|b| - 1];
      MessagesConcat(reader, a, b[..|b| - 1]);
    }
  }

  lemma MessagesSnoc(reader: Reader, lines: seq<string>, line: string)
    ensures Messages(reader, lines + [line]) == Messages(reader, lines) + Message(reader, line)
  {
    assert (lines + [line])[..|lines|] == lines;
  }

  // ------------------------------------------------------------- the three loops

  predicate Accepted(rejects: string -> bool, messages: seq<string>) {
    forall i :: 0 <= i < |messages| ==> !rejects(messages[i])
  }

  /** The messages up to and including the first one that is rejected. */
  function UntilRejected(rejects: string -> bool, messages: seq<string>): seq<string> {
    if messages == [] then []
    else
      var front := messages[..|messages| - 1];
      if !Accepted(rejects, front) then UntilRejected(rejects, front) else messages
  }

  lemma {:induction false} UntilRejectedAt(rejects: string -> bool, accepted: seq<string>, bad: string, later: seq<string>)
    requires Accepted(rejects, accepted)
    requires rejects(bad)
    ensures UntilRejected(rejects, accepted + [bad] + later) == accepted + [bad]
    decreases |later|
  {
    var all := accepted + [bad] + later;
    if later == [] {
      assert all[..|all| - 1] == accepted;
    } else {
      assert all[..|all| - 1] == accepted + [bad] + later[..|later| - 1];
      assert all[..|all| - 1][|accepted|] == bad;
      UntilRejectedAt(rejects, accepted, bad, later[..|later| - 1]);
    }
  }

  class Socket {
    const reader: Reader
    var buffer: string
    var dispatched: seq<string>

    constructor (reader: Reader)
      ensures this.reader == reader && buffer == "" && dispatched == []
    {
      this.reader := reader;
      buffer, dispatched := "", [];
    }

    /** `NiriWorkspaceManager::parseLines`.  An `Err` reply (`rejects`) empties the buffer and ends
        the scan; no later line of the buffer is dispatched. */
    method ParseLines(rejects: string -> bool) returns (ok: bool)
      requires reader == Niri
      modifies this
      ensures var messages := Messages(Niri, CutOf(old(buffer)).lines);
              && ok == Accepted(rejects, messages)
              && buffer == (if ok then CutOf(old(buffer)).rest else "")
              && dispatched == old(dispatched) + if ok then messages else UntilRejected(rejects, messages)
    {
      hide CutOf, Messages, UntilRejected;
      ghost var whole, sent := buffer, dispatched;
      NothingCutYet(Niri, buffer);
      ghost var lines: seq<string> := [];
      var start, it := 0, 0;
      while it < |buffer|
        invariant 0 <= start <= it <= |buffer| && buffer == whole
        invariant CutUpTo(whole, start, lines) && NoNewlineIn(whole, start, it)
        invariant Accepted(rejects, Messages(Niri, lines))
        invariant dispatched == sent + Messages(Niri, lines)
      {
        if buffer[it] == '\n' {
          ghost var before := Messages(Niri, lines);
          var accepted := HandleLine(rejects, buffer[start..it]);
          NextLine(Niri, whole, start, it, lines);
          assert dispatched == sent + (before + Message(Niri, whole[start..it]));
          if !accepted {
            RejectedWithin(rejects, whole, it + 1, before, Message(Niri, whole[start..it])[0]);
            buffer := "";
            return false;
          }
          lines := lines + [whole[start..it]];
          start := it + 1;
        }
        it := it + 1;
      }
      NoMoreLines(whole, start, lines);
      buffer := buffer[start..];
      return true;
    }

    method HandleLine(rejects: string -> bool, raw: string) returns (accepted: bool)
      modifies this`dispatched
      ensures dispatched == old(dispatched) + Message(Niri, raw)
      ensures accepted == Accepted(rejects, Message(Niri, raw))
    {
      var line := raw;
      if line != "" && line[|line| - 1] == '\r' {
        line := line[..|line| - 1];
      }
      accepted := true;
      if line != "" {
        dispatched := dispatched + [line];
        accepted := !rejects(line);
        assert !accepted ==> rejects(Message(Niri, raw)[0]);
      }
    }

    /** `HyprlandSession::processLines`: the consumed prefix is erased once, at the end. */
    method ProcessLines()
      requires reader == Hyprland
      modifies this
      ensures buffer == CutOf(old(buffer)).rest
      ensures dispatched == old(dispatched) + Messages(Hyprland, CutOf(old(buffer)).lines)
    {
      hide CutOf, Messages;
      var consumed := 0;
      ghost var lines: seq<string> := [];
      NothingCutYet(Hyprland, buffer);
      while true
        invariant 0 <= consumed <= |buffer|
        invariant buffer == old(buffer)
        invariant CutUpTo(buffer, consumed, lines)
        invariant dispatched == old(dispatched) + Messages(Hyprland, lines)
        decreases |buffer| - consumed
      {
        var nl := Find(buffer, consumed);
        if nl == |buffer| { break; }
        NextLine(Hyprland, buffer, consumed, nl, lines);
        if nl > consumed {
          assert dispatched + [buffer[consumed..nl]] == old(dispatched) + (Messages(Hyprland, lines) + [buffer[consumed..nl]]);
          dispatched := dispatched + [buffer[consumed..nl]];
        }
        lines := lines + [buffer[consumed..nl]];
        consumed := nl + 1;
      }
      NoMoreLines(buffer, consumed, lines);
      if consumed != 0 {
        buffer := buffer[consumed..];
      }
    }

    /** `MangoWorkspaceManager::consumeLines`: every line is erased before it is handled. */
    method ConsumeLines()
      requires reader == Mango
      modifies this
      ensures buffer == CutOf(old(buffer)).rest
      ensures dispatched == old(dispatched) + Messages(Mango, CutOf(old(buffer)).lines)
    {
      hide CutOf, Messages;
      ghost var whole, erased := buffer, 0;
      ghost var lines: seq<string> := [];
      NothingCutYet(Mango, buffer);
      while true
        invariant 0 <= erased <= |whole| && buffer == whole[erased..]
        invariant CutUpTo(whole, erased, lines)
        invariant dispatched == old(dispatched) + Messages(Mango, lines)
        decreases |buffer|
      {
        var pos := Find(buffer, 0);
        assert forall i :: erased <= i < erased + pos ==> whole[i] == buffer[i - erased];
        if pos == |buffer| { break; }
        assert buffer[..pos] == whole[erased..erased + pos];
        var line := buffer[..pos];
        NextLine(Mango, whole, erased, erased + pos, lines);
        lines := lines + [line];
        erased := erased + pos + 1;
        buffer := buffer[pos + 1..];
        dispatched := dispatched + [line];
      }
      NoMoreLines(whole, erased, lines);
    }

    /** What one look at the socket brings: it is appended and the buffer cut.  Niri's reader gives the
        connection up when its buffer grows too large. */
    method Receive(rejects: string -> bool, chunk: string) returns (ok: bool)
      modifies this
      ensures var step := Run(reader, old(buffer), [chunk]);
              && ok == (Fits(reader, old(buffer), chunk) && Accepts(reader, rejects, step.0))
              && dispatched == old(dispatched) + (if !Fits(reader, old(buffer), chunk) then []
                                                  else if ok then step.0 else UntilRejected(rejects, step.0))
              && buffer == if ok then step.1 else ""
    {
      hide CutOf, Messages, UntilRejected, Run;
      RunOnce(reader, buffer, chunk);
      buffer := buffer + chunk;
      if reader == Niri && |buffer| > READ_BUFFER_MAX_BYTES {
        buffer := "";
        assert dispatched + [] == dispatched;
        return false;
      }
      ok := true;
      match reader {
        case Niri => ok := ParseLines(rejects);
        case Hyprland => ProcessLines();
        case Mango => ConsumeLines();
      }
    }

    /** Look after look, until the connection is given up: together they are a `Run`, and how the bytes
        came in makes no difference. */
    method ReceiveAll(rejects: string -> bool, chunks: seq<string>) returns (ok: bool)
      modifies this
      ensures var run := Run(reader, old(buffer), chunks);
              && ok == (AllFit(reader, old(buffer), chunks) && Accepts(reader, rejects, run.0))
              && (ok ==> dispatched == old(dispatched) + run.0 && buffer == run.1)
              && (!ok ==> buffer == "")
      ensures ok && NewlineFree(old(buffer)) ==>
                var cut := CutOf(old(buffer) + Joined(chunks));
                dispatched == old(dispatched) + Messages(reader, cut.lines) && buffer == cut.rest
    {
      hide Run, UntilRejected, CutOf, Messages, Joined, NewlineFree;
      ghost var start, sent := buffer, dispatched;
      NothingRun(reader, buffer);
      assert chunks[..0] == [] && sent + [] == sent;
      var i := 0;
      while i < |chunks|
        invariant 0 <= i <= |chunks|
        invariant dispatched == sent + Run(reader, start, chunks[..i]).0 && buffer == Run(reader, start, chunks[..i]).1
        invariant forall k :: 0 <= k < i ==> Fits(reader, Run(reader, start, chunks[..k]).1, chunks[k])
        invariant Accepts(reader, rejects, Run(reader, start, chunks[..i]).0)
      {
        ghost var before := Run(reader, start, chunks[..i]);
        ghost var step := Run(reader, before.1, [chunks[i]]);
        RunGoesOn(reader, start, chunks[..i], chunks[i]);
        assert chunks[..i] + [chunks[i]] == chunks[..i + 1];
        var accepted := Receive(rejects, chunks[i]);
        BothAccepted(rejects, before.0, step.0);
        if !accepted {
          if Fits(reader, before.1, chunks[i]) {
            RejectedStays(reader, rejects, start, chunks, i + 1);
          }
          return false;
        }
        assert sent + before.0 + step.0 == sent + (before.0 + step.0);
        i := i + 1;
      }
      assert chunks[..i] == chunks;
      if NewlineFree(start) {
        SplitDoesNotMatter(reader, start, chunks);
      }
      return true;
    }
  }

  predicate Accepts(reader: Reader, rejects: string -> bool, messages: seq<string>) {
    reader == Niri ==> Accepted(rejects, messages)
  }

  predicate Fits(reader: Reader, buffer: string, chunk: string) {
    reader == Niri ==> |buffer + chunk| <= READ_BUFFER_MAX_BYTES
  }

  predicate AllFit(reader: Reader, buffer: string, chunks: seq<string>) {
    forall k :: 0 <= k < |chunks| ==> Fits(reader, Run(reader, buffer, chunks[..k]).1, chunks[k])
  }

  lemma NothingRun(reader: Reader, buffer: string)
    ensures Run(reader, buffer, []) == ([], buffer)
  {
  }

  lemma BothAccepted(rejects: string -> bool, a: seq<string>, b: seq<string>)
    ensures Accepted(rejects, a + b) <==> Accepted(rejects, a) && Accepted(rejects, b)
  {
    if Accepted(rejects, a + b) {
      forall i | 0 <= i < |a|
        ensures !rejects(a[i])
      {
        assert (a + b)[i] == a[i];
      }
      forall i | 0 <= i < |b|
        ensures !rejects(b[i])
      {
        assert (a + b)[|a| + i] == b[i];
      }
    }
  }

  /** A run keeps its rejected message. */
  lemma {:induction false} RejectedStays(reader: Reader, rejects: string -> bool, buffer: string, chunks: seq<string>, n: nat)
    requires n <= |chunks| && !Accepted(rejects, Run(reader, buffer, chunks[..n]).0)
    ensures !Accepted(rejects, Run(reader, buffer, chunks).0)
    decreases |chunks| - n
  {
    hide Run, Accepted;
    if n == |chunks| {
      assert chunks[..n] == chunks;
    } else {
      RunGoesOn(reader, buffer, chunks[..n], chunks[n]);
      assert chunks[..n] + [chunks[n]] == chunks[..n + 1];
      var before := Run(reader, buffer, chunks[..n]);
      BothAccepted(rejects, before.0, Run(reader, before.1, [chunks[n]]).0);
      RejectedStays(reader, rejects, buffer, chunks, n + 1);
    }
  }

  predicate NoNewlineIn(s: string, from: nat, to: nat)
    requires from <= to <= |s|
  {
    forall i :: from <= i < to ==> s[i] != '\n'
  }

  /** The first `n` bytes are exactly these lines, each ended by its newline. */
  ghost predicate CutUpTo(s: string, n: nat, lines: seq<string>)
    requires n <= |s|
  {
    CutOf(s[..n]) == Cut(lines, "")
  }

  lemma NothingCutYet(reader: Reader, s: string)
    ensures CutUpTo(s, 0, []) && Messages(reader, []) == []
  {
    assert s[..0] == "";
  }

  lemma NextLine(reader: Reader, s: string, from: nat, nl: nat, lines: seq<string>)
    requires from <= nl < |s| && s[nl] == '\n' && NoNewlineIn(s, from, nl)
    requires CutUpTo(s, from, lines)
    ensures CutUpTo(s, nl + 1, lines + [s[from..nl]])
    ensures Messages(reader, lines + [s[from..nl]]) == Messages(reader, lines) + Message(reader, s[from..nl])
  {
    hide CutOf, Messages, Message;
    var line := s[from..nl];
    CutOneLine(s[..from], line);
    assert "" + line == line;
    UpToNewline(s, from, nl);
    MessagesSnoc(reader, lines, line);
  }

  lemma UpToNewline(s: string, from: nat, nl: nat)
    requires from <= nl < |s| && s[nl] == '\n'
    ensures s[..nl + 1] == s[..from] + s[from..nl] + ['\n']
  {
  }

  lemma NoMoreLines(s: string, from: nat, lines: seq<string>)
    requires from <= |s| && NoNewlineIn(s, from, |s|)
    requires CutUpTo(s, from, lines)
    ensures CutOf(s) == Cut(lines, s[from..])
  {
    hide CutOf;
    CutWithoutNewline(s[..from], s[from..]);
    assert s == s[..from] + s[from..];
    assert "" + s[from..] == s[from..];
  }

  /** `std::find` for a newline; the length of the string when there is none. */
  method Find(s: string, from: nat) returns (at: nat)
    requires from <= |s|
    ensures from <= at <= |s| && NoNewlineIn(s, from, at)
    ensures at < |s| ==> s[at] == '\n'
  {
    at := from;
    while at < |s| && s[at] != '\n'
      invariant from <= at <= |s| && NoNewlineIn(s, from, at)
    {
      at := at + 1;
    }
  }

  lemma RejectedWithin(rejects: string -> bool, s: string, n: nat, before: seq<string>, bad: string)
    requires n <= |s|
    requires Messages(Niri, CutOf(s[..n]).lines) == before + [bad]
    requires Accepted(rejects, before)
    requires rejects(bad)
    ensures !Accepted(rejects, Messages(Niri, CutOf(s).lines))
    ensures UntilRejected(rejects, Messages(Niri, CutOf(s).lines)) == before + [bad]
  {
    assert s == s[..n] + s[n..];
    CutResumes(s[..n], s[n..]);
    var later := CutOf(CutOf(s[..n]).rest + s[n..]).lines;
    MessagesConcat(Niri, CutOf(s[..n]).lines, later);
    var all := before + [bad] + Messages(Niri, later);
    assert all[|before|] == bad;
    UntilRejectedAt(rejects, before, bad, Messages(Niri, later));
  }

  // -------------------------------------------------------------- split reads

  function Joined(chunks: seq<string>): string {
    if chunks == [] then "" else chunks[0] + Joined(chunks[1..])
  }

  /** A reader that is handed chunk after chunk: each time it appends and then cuts. */
  function Run(reader: Reader, buffer: string, chunks: seq<string>): (seq<string>, string)
    decreases |chunks|
  {
    if chunks == [] then ([], buffer)
    else
      var cut := CutOf(buffer + chunks[0]);
      var later := Run(reader, cut.rest, chunks[1..]);
      (Messages(reader, cut.lines) + later.0, later.1)
  }

  lemma RunOnce(reader: Reader, buffer: string, chunk: string)
    ensures Run(reader, buffer, [chunk]) == (Messages(reader, CutOf(buffer + chunk).lines), CutOf(buffer + chunk).rest)
  {
    hide CutOf, Messages;
    assert [chunk][1..] == [];
    var messages := Messages(reader, CutOf(buffer + chunk).lines);
    assert messages + [] == messages;
  }

  lemma RunCons(reader: Reader, buffer: string, chunk: string, chunks: seq<string>)
    ensures var cut := CutOf(buffer + chunk);
            var later := Run(reader, cut.rest, chunks);
            Run(reader, buffer, [chunk] + chunks) == (Messages(reader, cut.lines) + later.0, later.1)
  {
    hide CutOf, Messages;
    assert ([chunk] + chunks)[1..] == chunks;
  }

  /** A run goes on with the next read where it stopped. */
  lemma {:induction false} RunGoesOn(reader: Reader, buffer: string, chunks: seq<string>, chunk: string)
    ensures var before := Run(reader, buffer, chunks);
            var step := Run(reader, before.1, [chunk]);
            Run(reader, buffer, chunks + [chunk]) == (before.0 + step.0, step.1)
    decreases |chunks|
  {
    hide CutOf, Messages;
    if chunks == [] {
      var step := Run(reader, buffer, [chunk]);
      assert chunks + [chunk] == [chunk] && [] + step.0 == step.0;
    } else {
      hide Run;
      var first, more := chunks[0], chunks[1..];
      var cut := CutOf(buffer + first);
      RunGoesOn(reader, cut.rest, more, chunk);
      RunCons(reader, buffer, first, more);
      RunCons(reader, buffer, first, more + [chunk]);
      assert [first] + more == chunks && [first] + (more + [chunk]) == chunks + [chunk];
      var later := Run(reader, cut.rest, more);
      Regrouped(Messages(reader, cut.lines), later.0, Run(reader, later.1, [chunk]).0);
    }
  }

  lemma Regrouped(a: seq<string>, b: seq<string>, c: seq<string>)
    ensures a + (b + c) == a + b + c
  {
  }

  lemma MessagesResume(reader: Reader, s: string, more: string)
    ensures Messages(reader, CutOf(s + more).lines) ==
            Messages(reader, CutOf(s).lines) + Messages(reader, CutOf(CutOf(s).rest + more).lines)
    ensures CutOf(s + more).rest == CutOf(CutOf(s).rest + more).rest
    ensures NewlineFree(CutOf(s).rest)
  {
    CutResumes(s, more);
    CutIsFaithful(s);
    MessagesConcat(reader, CutOf(s).lines, CutOf(CutOf(s).rest + more).lines);
  }

  /** However the stream is split into reads, the messages are those of the unsplit stream, in order,
      and only the bytes after its last newline are kept. */
  lemma {:induction false} SplitDoesNotMatter(reader: Reader, buffer: string, chunks: seq<string>)
    requires NewlineFree(buffer)
    ensures Run(reader, buffer, chunks) ==
            (Messages(reader, CutOf(buffer + Joined(chunks)).lines), CutOf(buffer + Joined(chunks)).rest)
    decreases |chunks|
  {
    if chunks == [] {
      assert buffer + Joined(chunks) == buffer;
      CutOfPlain(buffer);
    } else {
      var filled, later := buffer + chunks[0], Joined(chunks[1..]);
      assert buffer + Joined(chunks) == filled + later;
      MessagesResume(reader, filled, later);
      SplitDoesNotMatter(reader, CutOf(filled).rest, chunks[1..]);
    }
  }
}
