/** Assembling powermetrics output lines into frames: `FrameAssembler` of the mac exporter's source. */
module Frames {
  import opened Prelude

  const HEADER := "*** Sampled system activity ("
  const MAX_FRAME_BYTES := 1024 * 1024

  /** Bytes of one character in UTF-8, the encoding lengths are counted in. */
  function CharBytes(c: char): nat {
    if c < '\U{80}' then 1 else if c < '\U{800}' then 2 else if c < '\U{10000}' then 3 else 4
  }

  function Bytes(text: string): nat {
    if text == "" then 0 else CharBytes(text[0]) + Bytes(text[1..])
  }

  lemma {:induction false} BytesAppend(a: string, b: string)
    ensures Bytes(a + b) == Bytes(a) + Bytes(b)
  {
    if a == "" {
      assert a + b == b;
    } else {
      assert (a + b)[1..] == a[1..] + b;
      BytesAppend(a[1..], b);
    }
  }

  /** A character's bytes: the encoding of section 3 of RFC 3629. */
  function Utf8Char(c: char): seq<int> {
    var n := c as int;
    if n <= 0x7F then [n]
    else if n <= 0x7FF then [0xC0 + n / 64, 0x80 + n % 64]
    else if n <= 0xFFFF then [0xE0 + n / 4096, 0x80 + n / 64 % 64, 0x80 + n % 64]
    else [0xF0 + n / 262_144, 0x80 + n / 4096 % 64, 0x80 + n / 64 % 64, 0x80 + n % 64]
  }

  function Utf8(text: string): seq<int> {
    if text == "" then [] else Utf8Char(text[0]) + Utf8(text[1..])
  }

  /** The bytes counted are those of the text's UTF-8 encoding. */
  lemma {:induction false} BytesOfUtf8(text: string)
    ensures Bytes(text) == |Utf8(text)|
  {
    if text != "" {
      BytesOfUtf8(text[1..]);
    }
  }

  predicate IsHeader(line: string) {
    HEADER <= line
  }

  /** What `push` answers: a completed frame, nothing yet, or a refusal of a runaway frame. */
  datatype Push = Completed(frame: string) | Pending | Refused

  predicate TooLong(current: string, line: string) {
    Bytes(current) + Bytes(line) + 1 > MAX_FRAME_BYTES
  }

  function PushStep(current: Option<string>, line: string): (Option<string>, Push) {
    if IsHeader(line) then
      (Some(line + "\n"), if current.Some? then Completed(current.value) else Pending)
    else if current.None? then (None, Pending)
    else if TooLong(current.value, line) then (current, Refused)
    else (Some(current.value + line + "\n"), Pending)
  }

  class FrameAssembler {
    var current: Option<string>

    constructor ()
      ensures current == None
    {
      current := None;
    }

    method Push(line: string) returns (result: Push)
      modifies this
      ensures (current, result) == PushStep(old(current), line)
    {
      if IsHeader(line) {
        result := if current.Some? then Completed(current.value) else Pending;
        current := Some(line + "\n");
        return;
      }
      if current.None? {
        return Pending;
      }
      if Bytes(current.value) + Bytes(line) + 1 > MAX_FRAME_BYTES {
        return Refused;
      }
      current := Some(current.value + line + "\n");
      result := Pending;
    }
  }

  // ---- a whole stream ---------------------------------------------------------------------

  /** The completed frames and the frame in progress; `None` once a line was refused. */
  datatype Stream = Stream(frames: seq<string>, current: Option<string>)

  /** A stream after one more line, unless that line was refused. */
  function Advance(s: Stream, line: string): Option<Stream> {
    var (current, result) := PushStep(s.current, line);
    match result
    case Completed(frame) => Some(Stream(s.frames + [frame], current))
    case Pending => Some(Stream(s.frames, current))
    case Refused => None
  }

  function Feed(lines: seq<string>): Option<Stream> {
    if lines == [] then Some(Stream([], None))
    else
      match Feed(lines[..|lines| - 1])
      case None => None
      case Some(s) => Advance(s, lines[|lines| - 1])
  }

  /** Lines as the text they came from, each with its line feed. */
  function TextOf(lines: seq<string>): string {
    if lines == [] then "" else TextOf(lines[..|lines| - 1]) + lines[|lines| - 1] + "\n"
  }

  function Concat(frames: seq<string>): string {
    if frames == [] then "" else Concat(frames[..|frames| - 1]) + frames[|frames| - 1]
  }

  /** Everything from the first header on: what precedes it is preamble. */
  function FromFirstHeader(lines: seq<string>): seq<string> {
    if lines == [] then [] else if IsHeader(lines[0]) then lines else FromFirstHeader(lines[1..])
  }

  lemma {:induction false} FromFirstHeaderSnoc(lines: seq<string>, line: string)
    ensures FromFirstHeader(lines + [line]) ==
      if FromFirstHeader(lines) == [] && !IsHeader(line) then [] else FromFirstHeader(lines) + [line]
  {
    hide IsHeader;
    if lines == [] {
      assert (lines + [line])[1..] == [];
      assert lines + [line] == [line];
    } else {
      assert (lines + [line])[1..] == lines[1..] + [line];
      FromFirstHeaderSnoc(lines[1..], line);
    }
  }

  /** A frame is one header line and the lines up to the next: no other header among them. */
  ghost predicate IsFrame(frame: string, lines: seq<string>) {
    && lines != [] && IsHeader(lines[0])
    && (forall i :: 1 <= i < |lines| ==> !IsHeader(lines[i]))
    && frame == TextOf(lines)
  }

  /** The size of a frame: at most the limit, unless its header alone is longer. */
  ghost predicate Bounded(frame: string, lines: seq<string>)
    requires lines != []
  {
    Bytes(frame) <= Max(MAX_FRAME_BYTES, Bytes(lines[0]) + 1)
  }

  ghost predicate WellFormed(frame: string) {
    exists lines :: IsFrame(frame, lines) && Bounded(frame, lines)
  }

  lemma FrameGrows(frame: string, lines: seq<string>, line: string)
    requires IsFrame(frame, lines) && Bounded(frame, lines) && !IsHeader(line) && !TooLong(frame, line)
    ensures IsFrame(frame + line + "\n", lines + [line]) && Bounded(frame + line + "\n", lines + [line])
  {
    hide IsHeader;
    assert (lines + [line])[..|lines|] == lines;
    BytesAppend(frame + line, "\n");
    BytesAppend(frame, line);
    assert Bytes("\n") == 1 by {
      LineFeedByte();
    }
  }

  lemma LineFeedByte()
    ensures Bytes("\n") == 1
  {
    assert "\n"[1..] == "";
  }

  lemma FrameStarts(line: string)
    requires IsHeader(line)
    ensures IsFrame(line + "\n", [line]) && Bounded(line + "\n", [line])
  {
    hide IsHeader;
    assert [line][..0] == [];
    assert TextOf([line]) == TextOf([]) + line + "\n";
    assert TextOf([]) + line == line;
    BytesAppend(line, "\n");
    LineFeedByte();
  }

  /** The frames and the open frame, joined, are exactly `input`; each is well formed. */
  ghost predicate Conserved(s: Stream, input: seq<string>) {
    && Concat(s.frames) + (if s.current.Some? then s.current.value else "") == TextOf(input)
    && (s.current.None? <==> input == [])
    && (forall frame :: frame in s.frames ==> WellFormed(frame))
    && (s.current.Some? ==> WellFormed(s.current.value))
    && (s.current.None? ==> s.frames == [])
  }

  /**
   Frame conservation: for every accepted stream the completed frames and the frame in progress,
   joined, are the input from the first header on; each is one header followed by no other header, and
   no appended line ever pushed one past the limit.
   */
  lemma {:induction false} FramesConserveInput(lines: seq<string>)
    ensures Feed(lines).Some? ==> Conserved(Feed(lines).value, FromFirstHeader(lines))
  {
    hide Conserved, Advance, FromFirstHeader;
    if lines == [] {
      NothingConserved();
    } else {
      var front, line := lines[..|lines| - 1], lines[|lines| - 1];
      assert lines == front + [line];
      FramesConserveInput(front);
      FromFirstHeaderSnoc(front, line);
      if Feed(front).Some? {
        StreamStep(Feed(front).value, front, line);
      }
    }
  }

  lemma NothingConserved()
    ensures Conserved(Stream([], None), FromFirstHeader([]))
  {
  }

  lemma TextSnoc(lines: seq<string>, line: string)
    ensures TextOf(lines + [line]) == TextOf(lines) + (line + "\n")
  {
    assert (lines + [line])[..|lines|] == lines;
    Assoc(TextOf(lines), line, "\n");
  }

  lemma ConcatSnoc(frames: seq<string>, frame: string)
    ensures Concat(frames + [frame]) == Concat(frames) + frame
  {
    assert (frames + [frame])[..|frames|] == frames;
  }

  /** A header completes the open frame, if there is one, and opens the next. */
  lemma HeaderStep(s: Stream, input: seq<string>, line: string)
    requires Conserved(s, input) && IsHeader(line)
    ensures Advance(s, line).Some? && Conserved(Advance(s, line).value, input + [line])
  {
    hide IsHeader, Bounded, IsFrame, TextOf, Concat;
    FrameStarts(line);
    TextSnoc(input, line);
    if s.current.Some? {
      ConcatSnoc(s.frames, s.current.value);
    } else {
      hide WellFormed;
      NothingText();
    }
  }

  lemma NothingText()
    ensures Concat([]) == "" && TextOf([]) == "" && forall text: string :: "" + text == text
  {
  }

  /** Another line joins the open frame. */
  lemma AppendStep(s: Stream, input: seq<string>, line: string)
    requires Conserved(s, input) && !IsHeader(line) && s.current.Some? && !TooLong(s.current.value, line)
    ensures Advance(s, line).Some? && Conserved(Advance(s, line).value, input + [line])
  {
    hide IsHeader, Bounded, TextOf, Concat, TooLong;
    var lines :| IsFrame(s.current.value, lines) && Bounded(s.current.value, lines);
    FrameGrows(s.current.value, lines, line);
    TextSnoc(input, line);
    Assoc(Concat(s.frames), s.current.value, line + "\n");
    Assoc(s.current.value, line, "\n");
  }

  lemma StreamStep(s: Stream, front: seq<string>, line: string)
    requires Conserved(s, FromFirstHeader(front))
    ensures Advance(s, line).Some? ==>
      Conserved(Advance(s, line).value,
                if FromFirstHeader(front) == [] && !IsHeader(line) then [] else FromFirstHeader(front) + [line])
  {
    hide IsHeader, FromFirstHeader, WellFormed, TextOf, Concat, TooLong;
    if IsHeader(line) {
      HeaderStep(s, FromFirstHeader(front), line);
    } else if s.current.Some? && !TooLong(s.current.value, line) {
      AppendStep(s, FromFirstHeader(front), line);
    }
  }

  /** The in-progress frame's group, at any point of an accepted stream. */
  function OpenLines(lines: seq<string>): seq<string> {
    if lines == [] then []
    else
      var front, line := lines[..|lines| - 1], lines[|lines| - 1];
      if IsHeader(line) then [line]
      else if OpenLines(front) == [] then [] else OpenLines(front) + [line]
  }

  lemma {:induction false} CurrentIsOpenLines(lines: seq<string>)
    ensures var fed := Feed(lines);
      fed.Some? ==>
        fed.value.current == if OpenLines(lines) == [] then None else Some(TextOf(OpenLines(lines)))
  {
    hide IsHeader, Bytes;
    if lines != [] {
      var front, line := lines[..|lines| - 1], lines[|lines| - 1];
      CurrentIsOpenLines(front);
      var open := OpenLines(front);
      assert (open + [line])[..|open|] == open;
      assert [line][..0] == [];
      assert TextOf([line]) == TextOf([]) + line + "\n";
      assert TextOf([]) + line == line;
    }
  }

  /**
   A stream is refused exactly when some non-header line would grow the frame open before it past the
   limit; nothing else is ever refused.
   */
  lemma {:induction false} RefusedExactly(lines: seq<string>)
    ensures Feed(lines).None? <==> exists i :: 0 <= i < |lines| && Overflows(lines, i)
  {
    if lines != [] {
      var front := lines[..|lines| - 1];
      hide *;
      RefusedExactly(front);
      RefusedNow(lines, front);
      OverflowsEarlier(lines, front);
      LastOverflow(lines, front);
    }
  }

  lemma RefusedNow(lines: seq<string>, front: seq<string>)
    requires lines != [] && front == lines[..|lines| - 1]
    ensures Feed(lines).None? <==> Feed(front).None? || Overflows(lines, |front|)
  {
    hide IsHeader, Bytes, OpenLines, Overflows, TextOf, TooLong;
    CurrentIsOpenLines(front);
    OverflowsRefused(lines, |front|);
    assert lines[..|front|] == front;
  }

  lemma OverflowsRefused(lines: seq<string>, i: int)
    requires 0 <= i < |lines|
    ensures Overflows(lines, i) <==>
      !IsHeader(lines[i]) && OpenLines(lines[..i]) != [] && TooLong(TextOf(OpenLines(lines[..i])), lines[i])
  {
    hide Bytes, OpenLines, Utf8, TextOf;
    BytesOfUtf8(TextOf(OpenLines(lines[..i])));
    BytesOfUtf8(lines[i]);
  }

  lemma OverflowsEarlier(lines: seq<string>, front: seq<string>)
    requires |front| <= |lines| && front == lines[..|front|]
    ensures forall i :: 0 <= i < |front| ==> (Overflows(lines, i) <==> Overflows(front, i))
  {
    hide OpenLines, IsHeader, Bytes, Utf8, TextOf;
    forall i | 0 <= i < |front|
      ensures Overflows(lines, i) <==> Overflows(front, i)
    {
      assert front[i] == lines[i] && front[..i] == lines[..i];
    }
  }

  lemma LastOverflow(lines: seq<string>, front: seq<string>)
    requires |lines| == |front| + 1
    requires forall i :: 0 <= i < |front| ==> (Overflows(lines, i) <==> Overflows(front, i))
    ensures (exists i :: 0 <= i < |lines| && Overflows(lines, i)) <==>
      (exists i :: 0 <= i < |front| && Overflows(front, i)) || Overflows(lines, |front|)
  {
    hide *;
  }

  ghost predicate Overflows(lines: seq<string>, i: int)
    requires 0 <= i < |lines|
  {
    && !("*** Sampled system activity (" <= lines[i]) && OpenLines(lines[..i]) != []
    && |Utf8(TextOf(OpenLines(lines[..i])))| + |Utf8(lines[i])| + 1 > 1_048_576
  }
}
