/**
 The line splitter of the chat client's event stream. Text arrives in chunks that may cut
 lines anywhere; the payloads yielded depend only on the text, not on where it was cut.
 */
module SseStream {
  import opened AsciiText
  import Lexing

  datatype Chunk = Received(text: string) | Failed
  datatype Event = Payload(data: string) | NetworkError

  /** What one complete line asks for. */
  datatype LineKind = Ignored | Data(data: string) | Done

  function TrimEnd(s: string): string {
    if s != "" && IsSpace(s[|s| - 1]) then TrimEnd(s[..|s| - 1]) else s
  }

  function Trim(s: string): string {
    TrimEnd(SkipSpaces(s))
  }

  function Kind(rawLine: string): LineKind {
    var line := Trim(rawLine);
    if line == "" || StartsWith(line, ':') then Ignored
    else if StartsWithText(line, "data: ") then
      if line[6..] == "[DONE]" then Done else Data(line[6..])
    else Ignored
  }

  /** The position of the first newline, or the length of the text. */
  function LineEnd(s: string): (n: nat)
    ensures n <= |s|
    ensures forall i | 0 <= i < n :: s[i] != '\n'
    ensures n < |s| ==> s[n] == '\n'
  {
    if s != "" && s[0] != '\n' then 1 + LineEnd(s[1..]) else 0
  }

  // The specification: split the whole text at once, then filter, then cut.

  /** The lines that are complete: each newline ends one. */
  function Lines(s: string): seq<string>
    decreases |s|
  {
    var n := LineEnd(s);
    if n == |s| then [] else [s[..n]] + Lines(s[n + 1..])
  }

  predicate Finished(lines: seq<string>) {
    exists i | 0 <= i < |lines| :: Kind(lines[i]) == Done
  }

  /** The payloads of the data lines that come before the first DONE line. */
  function PayloadsOf(lines: seq<string>): seq<string> {
    if lines == [] then []
    else match Kind(lines[0])
      case Done => []
      case Data(data) => [data] + PayloadsOf(lines[1..])
      case Ignored => PayloadsOf(lines[1..])
  }

  /** What follows the last newline. */
  function Remainder(s: string): (r: string)
    ensures '\n' !in r
    decreases |s|
  {
    var n := LineEnd(s);
    if n == |s| then s else Remainder(s[n + 1..])
  }

  function Text(chunks: seq<Chunk>): string {
    if chunks == [] then ""
    else
      var n := |chunks| - 1;
      Text(chunks[..n]) + match chunks[n] case Received(text) => text case Failed => ""
  }

  function PayloadsIn(events: seq<Event>): seq<string> {
    if events == [] then []
    else
      var n := |events| - 1;
      match events[n]
      case Payload(data) => PayloadsIn(events[..n]) + [data]
      case NetworkError => PayloadsIn(events[..n])
  }

  // How lines and payloads compose.

  /** The first newline ends the first line. */
  lemma FirstLine(s: string, n: nat)
    requires n < |s| && s[n] == '\n' && '\n' !in s[..n]
    ensures Lines(s) == [s[..n]] + Lines(s[n + 1..])
    ensures Remainder(s) == Remainder(s[n + 1..])
  {
    assert forall i | 0 <= i < n :: s[i] == s[..n][i];
    LineEndIs(s, n);
  }

  lemma {:induction false} LinesCompose(a: string, b: string)
    ensures Lines(a + b) == Lines(a) + Lines(Remainder(a) + b)
    ensures Remainder(a + b) == Remainder(Remainder(a) + b)
    decreases |a|
  {
    hide Lines, Remainder, LineEnd;
    var n := LineEnd(a);
    assert '\n' !in a[..n];
    if n < |a| {
      var line, rest := a[..n], a[n + 1..];
      assert (a + b)[..n] == line && (a + b)[n + 1..] == rest + b && (a + b)[n] == a[n];
      FirstLine(a, n);
      FirstLine(a + b, n);
      LinesCompose(rest, b);
      assert [line] + (Lines(rest) + Lines(Remainder(rest) + b)) == ([line] + Lines(rest)) + Lines(Remainder(rest) + b);
    } else {
      assert a[..n] == a;
      NoNewlineNoLines(a);
      assert [] + Lines(a + b) == Lines(a + b);
    }
  }

  lemma {:induction false} NoNewlineNoLines(s: string)
    requires '\n' !in s
    ensures LineEnd(s) == |s| && Lines(s) == [] && Remainder(s) == s
  {
  }

  lemma {:induction false} PayloadsCompose(a: seq<string>, b: seq<string>)
    ensures PayloadsOf(a + b) == if Finished(a) then PayloadsOf(a) else PayloadsOf(a) + PayloadsOf(b)
    ensures Finished(a + b) <==> Finished(a) || Finished(b)
    decreases |a|
  {
    FinishedEither(a, b);
    if a == [] {
      assert a + b == b;
    } else {
      assert (a + b)[1..] == a[1..] + b;
      PayloadsCompose(a[1..], b);
      assert a == [a[0]] + a[1..];
      FinishedEither([a[0]], a[1..]);
      assert Finished([a[0]]) <==> Kind(a[0]) == Done by { assert [a[0]][0] == a[0]; }
    }
  }

  lemma FinishedEither(a: seq<string>, b: seq<string>)
    ensures Finished(a + b) <==> Finished(a) || Finished(b)
  {
    if Finished(a) {
      var i :| 0 <= i < |a| && Kind(a[i]) == Done;
      assert (a + b)[i] == a[i];
    }
    if Finished(b) {
      var i :| 0 <= i < |b| && Kind(b[i]) == Done;
      assert (a + b)[|a| + i] == b[i];
    }
  }

  lemma PayloadsInMore(events: seq<Event>, e: Event)
    ensures PayloadsIn(events + [e]) ==
            match e case Payload(data) => PayloadsIn(events) + [data] case NetworkError => PayloadsIn(events)
  {
    assert (events + [e])[..|events|] == events;
  }

  /** One more line, after lines that did not finish the stream. */
  lemma LineSeen(lines: seq<string>, line: string)
    requires !Finished(lines)
    ensures var more := lines + [line];
            match Kind(line)
            case Ignored => !Finished(more) && PayloadsOf(more) == PayloadsOf(lines)
            case Done => Finished(more) && PayloadsOf(more) == PayloadsOf(lines)
            case Data(data) => !Finished(more) && PayloadsOf(more) == PayloadsOf(lines) + [data]
  {
    PayloadsCompose(lines, [line]);
    assert [line][0] == line && [line][1..] == [];
  }

  lemma SplitMoves(a: string, b: string, k: nat)
    requires k <= |b|
    ensures (a + b[..k]) + b[k..] == a + b
  {
  }

  /** One more line of text, taken by the loop from its buffer. */
  lemma NextLine(consumed: string, buffer: string)
    requires Remainder(consumed) == ""
    requires LineEnd(buffer) < |buffer|
    ensures var n := LineEnd(buffer);
            && Lines(consumed + buffer[..n + 1]) == Lines(consumed) + [buffer[..n]]
            && Remainder(consumed + buffer[..n + 1]) == ""
  {
    hide Lines, Remainder, LineEnd;
    var n := LineEnd(buffer);
    var line := buffer[..n + 1];
    assert line[n] == '\n' && forall i | 0 <= i < n :: line[i] == buffer[i];
    LineEndIs(line, n);
    SingleLine(line);
    assert line[..n] == buffer[..n];
    LinesCompose(consumed, line);
    assert Remainder(consumed) + line == line;
  }

  lemma SingleLine(line: string)
    requires line != "" && LineEnd(line) == |line| - 1
    ensures Lines(line) == [line[..|line| - 1]] && Remainder(line) == ""
  {
    assert line[|line|..] == "";
  }

  lemma {:induction false} LineEndIs(s: string, n: nat)
    requires n < |s| && s[n] == '\n' && forall i | 0 <= i < n :: s[i] != '\n'
    ensures LineEnd(s) == n
  {
    if LineEnd(s) < n {
      assert s[LineEnd(s)] == '\n';
    }
  }

  /**
   Reads a stream until it ends or says DONE. `consumed` is the ghost of the text that the
   loop has taken out of its buffer.
   */
  method ParseSseStream(chunks: seq<Chunk>) returns (events: seq<Event>, done: bool, buffer: string, seen: nat)
    ensures seen <= |chunks| && (!done ==> seen == |chunks|)
    ensures done <==> Finished(Lines(Text(chunks)))
    ensures PayloadsIn(events) == PayloadsOf(Lines(Text(chunks)))
    ensures !done ==> buffer == Remainder(Text(chunks))
    ensures |events| == |PayloadsIn(events)| + Failures(chunks[..seen])
  {
    hide Lines, PayloadsOf, PayloadsIn, Remainder, Finished, Kind, LineEnd;
    StartOfStream();
    events, buffer, done, seen := [], "", false, 0;
    ghost var consumed := "";
    for c := 0 to |chunks|
      invariant seen == c && !done
      invariant consumed + buffer == Text(chunks[..c])
      invariant Remainder(consumed) == "" && '\n' !in buffer
      invariant PayloadsIn(events) == PayloadsOf(Lines(consumed)) && !Finished(Lines(consumed))
      invariant |events| == |PayloadsIn(events)| + Failures(chunks[..c])
    {
      seen := c + 1;
      assert chunks[..c + 1][..c] == chunks[..c];
      if chunks[c].Failed? {
        PayloadsInMore(events, NetworkError);
        events := events + [NetworkError];
        continue;
      }
      buffer := buffer + chunks[c].text;
      ghost var arrived := Text(chunks[..c + 1]);
      while LineEnd(buffer) < |buffer|
        invariant !done && consumed + buffer == arrived
        invariant Remainder(consumed) == ""
        invariant PayloadsIn(events) == PayloadsOf(Lines(consumed)) && !Finished(Lines(consumed))
        invariant |events| == |PayloadsIn(events)| + Failures(chunks[..c + 1])
        decreases |buffer|
      {
        var n := LineEnd(buffer);
        var rawLine := buffer[..n];
        NextLine(consumed, buffer);
        LineSeen(Lines(consumed), rawLine);
        SplitMoves(consumed, buffer, n + 1);
        consumed := consumed + buffer[..n + 1];
        buffer := buffer[n + 1..];
        match Kind(rawLine)
        case Ignored =>
        case Done =>
          done := true;
          StreamStopped(consumed, buffer, chunks, c + 1);
          return;
        case Data(data) =>
          PayloadsInMore(events, Payload(data));
          events := events + [Payload(data)];
      }
    }
    assert chunks[..|chunks|] == chunks;
    LinesCompose(consumed, buffer);
    assert Remainder(consumed) + buffer == buffer;
    NoNewlineNoLines(buffer);
    assert Lines(consumed) + [] == Lines(consumed);
  }

  lemma StartOfStream()
    ensures Lines("") == [] && Remainder("") == "" && PayloadsOf([]) == [] && !Finished([]) && PayloadsIn([]) == []
  {
  }

  function Failures(chunks: seq<Chunk>): nat {
    if chunks == [] then 0
    else
      var n := |chunks| - 1;
      Failures(chunks[..n]) + if chunks[n].Failed? then 1 else 0
  }

  lemma StreamStopped(consumed: string, buffer: string, chunks: seq<Chunk>, seen: nat)
    requires seen <= |chunks| && consumed + buffer == Text(chunks[..seen])
    requires Finished(Lines(consumed))
    ensures Finished(Lines(Text(chunks))) && PayloadsOf(Lines(Text(chunks))) == PayloadsOf(Lines(consumed))
  {
    hide Lines, PayloadsOf, Remainder, Finished, Kind, Text;
    var rest := TextSplit(chunks, seen);
    assert consumed + (buffer + rest) == Text(chunks);
    LinesCompose(consumed, buffer + rest);
    PayloadsCompose(Lines(consumed), Lines(Remainder(consumed) + (buffer + rest)));
  }

  /** Later chunks only add text at the end. */
  lemma {:induction false} TextSplit(chunks: seq<Chunk>, k: nat) returns (rest: string)
    requires k <= |chunks|
    ensures Text(chunks) == Text(chunks[..k]) + rest
  {
    if k == |chunks| {
      assert chunks[..k] == chunks;
      rest := "";
    } else {
      var n := |chunks| - 1;
      assert chunks[..n][..k] == chunks[..k];
      var r := TextSplit(chunks[..n], k);
      rest := r + match chunks[n] case Received(text) => text case Failed => "";
    }
  }

  /** As more chunks arrive the payloads only grow at the end, and stop growing after DONE. */
  lemma PayloadsOnlyGrow(chunks: seq<Chunk>, k: nat)
    requires k <= |chunks|
    ensures PayloadsOf(Lines(Text(chunks[..k]))) <= PayloadsOf(Lines(Text(chunks)))
    ensures Finished(Lines(Text(chunks[..k]))) ==>
            PayloadsOf(Lines(Text(chunks[..k]))) == PayloadsOf(Lines(Text(chunks)))
  {
    var rest := TextSplit(chunks, k);
    var text := Text(chunks[..k]);
    LinesCompose(text, rest);
    PayloadsCompose(Lines(text), Lines(Remainder(text) + rest));
  }

  // A server that frames its payloads as events is understood.

  /** A payload that fits on one line and does not end in space. */
  predicate Framable(p: string) {
    p != "" && '\n' !in p && !IsSpace(p[|p| - 1]) && p != "[DONE]"
  }

  function Frame(payloads: seq<string>): string {
    if payloads == [] then "data: [DONE]\n\n"
    else "data: " + payloads[0] + "\n\n" + Frame(payloads[1..])
  }

  lemma EventLines(line: string, rest: string)
    requires '\n' !in line
    ensures Lines(line + "\n\n" + rest) == [line, ""] + Lines(rest)
  {
    hide Lines, Remainder, LineEnd;
    var s := line + "\n\n" + rest;
    var n := |line|;
    var after := s[n + 1..];
    assert s[n] == '\n' && s[..n] == line;
    FirstLine(s, n);
    assert after == "\n" + rest;
    assert after[0] == '\n' && after[..0] == "" && after[0 + 1..] == rest;
    FirstLine(after, 0);
    assert [line] + ([""] + Lines(rest)) == [line, ""] + Lines(rest);
  }

  lemma KindOfData(p: string)
    requires p != "" && !IsSpace(p[|p| - 1])
    ensures Kind("data: " + p) == if p == "[DONE]" then Done else Data(p)
    ensures Kind("") == Ignored
  {
    var line := "data: " + p;
    assert line[0] == 'd' && line[|line| - 1] == p[|p| - 1];
    assert Trim(line) == line;
    assert line[6..] == p;
  }

  /** Unframing: the payloads come out as they went in, and the stream is finished. */
  lemma {:induction false} FramedPayloadsComeBack(payloads: seq<string>)
    requires forall i | 0 <= i < |payloads| :: Framable(payloads[i])
    ensures PayloadsOf(Lines(Frame(payloads))) == payloads && Finished(Lines(Frame(payloads)))
    decreases |payloads|
  {
    hide Kind, Lines;
    var p := if payloads == [] then "[DONE]" else payloads[0];
    var rest := if payloads == [] then "" else Frame(payloads[1..]);
    var line := "data: " + p;
    KindOfData(p);
    EventLines(line, rest);
    assert Frame(payloads) == line + "\n\n" + rest;
    PayloadsCompose([line, ""], Lines(rest));
    assert [line, ""][1..] == [""] && [""][1..] == [];
    if payloads == [] {
      assert [line, ""][0] == line;
      assert Finished([line, ""]);
    } else {
      FramedPayloadsComeBack(payloads[1..]);
      assert !Finished([line, ""]);
      assert payloads == [p] + payloads[1..];
    }
  }

  // What a server may put between the payloads.

  /** A line that carries no payload: blank, a comment, or a field other than data. */
  predicate Noise(line: string) {
    || (forall i | 0 <= i < |line| :: line[i] in " \t\r")
    || (line != "" && line[0] == ':')
    || (line != "" && line[0] !in " \t\n\r\U{000B}\U{000C}" && !("data:" <= line))
  }

  lemma {:induction false} TrimEndIsPrefix(s: string)
    ensures TrimEnd(s) <= s
    ensures (forall i | 0 <= i < |s| :: IsSpace(s[i])) ==> TrimEnd(s) == ""
    ensures s != "" && !IsSpace(s[0]) ==> TrimEnd(s) != "" && TrimEnd(s)[0] == s[0]
  {
    if s != "" && IsSpace(s[|s| - 1]) {
      TrimEndIsPrefix(s[..|s| - 1]);
    }
  }

  lemma {:induction false} AllSpaces(s: string)
    requires forall i | 0 <= i < |s| :: IsSpace(s[i])
    ensures SkipSpaces(s) == ""
  {
    if s != "" {
      AllSpaces(s[1..]);
    }
  }

  lemma NoiseIsIgnored(line: string)
    requires Noise(line)
    ensures Kind(line) == Ignored
  {
    if forall i | 0 <= i < |line| :: line[i] in " \t\r" {
      AllSpaces(line);
    } else {
      assert SkipSpaces(line) == line;
      TrimEndIsPrefix(line);
    }
  }

  /** Space around a line is not part of it; so is the carriage return of a line end. */
  lemma SpaceAroundIgnored(line: string, c: char)
    requires c in " \t\r"
    ensures Kind(line + [c]) == Kind(line)
    ensures Kind([c] + line) == Kind(line)
  {
    Lexing.SkipInFront(line, [c]);
    var t := SkipSpaces(line);
    assert IsSpace(c);
    assert SkipSpaces([c]) == "" by { AllSpaces([c]); }
    if t != "" {
      assert (t + [c])[..|t|] == t;
    }
    assert Trim(line + [c]) == Trim(line);
    assert ([c] + line)[1..] == line;
  }

  /** This client wants the space after the colon: a line `data:x` is passed over without an error. */
  lemma DataWithoutSpaceIgnored(value: string)
    requires !StartsWith(value, ' ')
    ensures Kind("data:" + value) == Ignored
  {
    var line := "data:" + value;
    assert SkipSpaces(line) == line;
    TrimEndIsPrefix(line);
    assert |line| > 5 ==> line[5] == value[0];
  }

  /** The lines as text, each with one of the two line ends. */
  function Written(lines: seq<string>, crlf: seq<bool>): string
    requires |lines| == |crlf|
  {
    if lines == [] then ""
    else lines[0] + (if crlf[0] then "\r\n" else "\n") + Written(lines[1..], crlf[1..])
  }

  /** The payloads that the lines spell out, and whether they say DONE. */
  function Spelled(lines: seq<string>): (seq<string>, bool) {
    if lines == [] then ([], false)
    else if Noise(lines[0]) then Spelled(lines[1..])
    else if lines[0] == "data: [DONE]" then ([], true)
    else (([if |lines[0]| >= 6 then lines[0][6..] else ""] + Spelled(lines[1..]).0), Spelled(lines[1..]).1)
  }

  /** Noise, the end of the stream, or a payload that does not end in space. */
  predicate Clean(line: string) {
    && '\n' !in line
    && (Noise(line) || line == "data: [DONE]" ||
        ("data: " <= line && |line| > 6 && line[|line| - 1] !in " \t\n\r\U{000B}\U{000C}"))
  }

  lemma KindOfClean(line: string)
    requires Clean(line)
    ensures !Noise(line) ==> |line| >= 6
    ensures Kind(line) ==
            if Noise(line) then Ignored else if line == "data: [DONE]" then Done else Data(line[6..])
  {
    if Noise(line) {
      NoiseIsIgnored(line);
    } else {
      var p := line[6..];
      assert line == "data: " + p;
      KindOfData(p);
    }
  }

  lemma OneWrittenLine(line: string, cr: bool, rest: string)
    requires '\n' !in line
    ensures var raw := if cr then line + "\r" else line;
            Lines(line + (if cr then "\r\n" else "\n") + rest) == [raw] + Lines(rest) && Kind(raw) == Kind(line)
  {
    hide Lines, Remainder, LineEnd, Kind;
    var raw := if cr then line + "\r" else line;
    var s := line + (if cr then "\r\n" else "\n") + rest;
    assert s == raw + ("\n" + rest);
    assert s[..|raw|] == raw && s[|raw|] == '\n' && s[|raw| + 1..] == rest;
    FirstLine(s, |raw|);
    SpaceAroundIgnored(line, '\r');
    assert line + ['\r'] == line + "\r";
  }

  /**
   What a server writes is what the client yields: the payloads in order up to DONE, whatever
   blank lines, comments and other fields stand between them and whichever line ends are used.
   */
  lemma {:induction false} NoiseAndLineEndsIgnored(lines: seq<string>, crlf: seq<bool>)
    requires |lines| == |crlf| && forall i | 0 <= i < |lines| :: Clean(lines[i])
    ensures var text := Lines(Written(lines, crlf));
            PayloadsOf(text) == Spelled(lines).0 && Finished(text) == Spelled(lines).1
    decreases |lines|
  {
    hide Kind, Lines, Noise, Clean;
    if lines == [] {
      assert Lines("") == [] by { StartOfStream(); }
    } else {
      var rest := Written(lines[1..], crlf[1..]);
      assert Clean(lines[0]);
      assert '\n' !in lines[0] by { CleanHasNoNewline(lines[0]); }
      OneWrittenLine(lines[0], crlf[0], rest);
      KindOfClean(lines[0]);
      NoiseAndLineEndsIgnored(lines[1..], crlf[1..]);
      var raw := if crlf[0] then lines[0] + "\r" else lines[0];
      PayloadsCompose([raw], Lines(rest));
      assert [raw][1..] == [] && [raw][0] == raw;
      assert Finished([raw]) <==> Kind(raw) == Done;
    }
  }

  lemma CleanHasNoNewline(line: string)
    requires Clean(line)
    ensures '\n' !in line
  {
  }
}
