/**
 The freedom the text exposition format allows and the exporters do not use: white space inside a label
 set, a comma after the last pair, a timestamp after the value. The readers accept all of it.
 */
module LooseText {
  import opened Prelude
  import opened Text
  import opened Labels
  import opened Exposition

  predicate Spaces(text: string) {
    forall c :: c in text ==> c in {' ', '\t', '\n', '\U{0C}', '\r'}
  }

  /** A pair with the white space around its key, its equals sign and its value. */
  datatype Spaced = Spaced(pair: LabelPair, lead: string, before: string, after: string, trail: string)

  ghost predicate Loose(items: seq<Spaced>) {
    forall s :: s in items ==> IsKey(s.pair.key) && Spaces(s.lead) && Spaces(s.before) && Spaces(s.after) && Spaces(s.trail)
  }

  function Quoted(s: Spaced): string {
    "\"" + Escape(s.pair.value) + "\""
  }

  function Head(s: Spaced): string {
    s.lead + s.pair.key + s.before + "=" + s.after
  }

  function SpacedItem(s: Spaced): string {
    Head(s) + Quoted(s) + s.trail
  }

  /** The white space after a comma that follows the last pair, if there is such a comma. */
  function Ending(end: Option<string>): string {
    if end.Some? then "," + end.value else ""
  }

  function MoreSpaced(items: seq<Spaced>, end: Option<string>): string {
    if items == [] then Ending(end) else "," + (SpacedItem(items[0]) + MoreSpaced(items[1..], end))
  }

  /** The inside of a label set. */
  function SpacedText(items: seq<Spaced>, end: Option<string>): string {
    if items == [] then (if end.Some? then end.value else "") else SpacedItem(items[0]) + MoreSpaced(items[1..], end)
  }

  function PairsOf(items: seq<Spaced>): seq<LabelPair> {
    if items == [] then [] else [items[0].pair] + PairsOf(items[1..])
  }

  // ---- reading labels -----------------------------------------------------------------------

  lemma {:induction false} SkipsSpaces(spaces: string, rest: string)
    requires Spaces(spaces) && (rest == "" || !IsAsciiSpace(rest[0]))
    ensures SkipSpace(spaces + rest) == rest
  {
    if spaces == "" {
      assert spaces + rest == rest;
    } else {
      assert (spaces + rest)[1..] == spaces[1..] + rest;
      assert spaces[0] in spaces && forall c :: c in spaces[1..] ==> c in spaces;
      SkipsSpaces(spaces[1..], rest);
    }
  }

  lemma AfterKey(before: string, rest: string)
    requires Spaces(before)
    ensures !IsKeyChar((before + "=" + rest)[0])
  {
    assert before != "" ==> before[0] in before;
  }

  lemma ReadSpacedKey(s: Spaced, rest: string)
    requires Loose([s])
    ensures var text := s.pair.key + (s.before + ("=" + (s.after + ("\"" + rest))));
      && !IsAsciiSpace(text[0])
      && ReadKey(text) == Ok((s.pair.key, rest))
  {
    hide SkipSpace, KeyLength, IsAsciiSpace, Spaces;
    assert s in [s];
    var quote := "\"" + rest;
    var equals := "=" + (s.after + quote);
    var text := s.pair.key + (s.before + equals);
    NotSpaces(s.pair.key, rest);
    AfterKey(s.before, s.after + quote);
    assert s.before + "=" + (s.after + quote) == s.before + equals;
    KeyLengthOf(s.pair.key, s.before + equals);
    assert text[|s.pair.key|..] == s.before + equals && text[..|s.pair.key|] == s.pair.key;
    SkipsSpaces(s.before, equals);
    assert equals[1..] == s.after + quote && quote[1..] == rest;
    SkipsSpaces(s.after, quote);
  }

  lemma NotSpaces(key: string, rest: string)
    requires IsKey(key)
    ensures !IsAsciiSpace(key[0]) && !IsAsciiSpace('=') && !IsAsciiSpace('"') && !IsAsciiSpace(',')
  {
    assert key[0] in key;
  }

  lemma ItemParts(s: Spaced, rest: string)
    ensures SpacedItem(s) + rest ==
      s.lead + (s.pair.key + (s.before + ("=" + (s.after + ("\"" + (Escape(s.pair.value) + "\"" + (s.trail + rest)))))))
  {
    hide Escape;
  }

  lemma ReadSpacedPair(s: Spaced, rest: string)
    requires Loose([s]) && (rest == "" || rest[0] == ',')
    ensures var start := SkipSpace(SpacedItem(s) + rest);
      start != "" && ReadPair(start) == Ok((s.pair, s.trail + rest)) && SkipSpace(s.trail + rest) == rest
  {
    hide SkipSpace, ReadKey, ReadValue, Escape, IsAsciiSpace, Spaces, SpacedItem, IsKey;
    assert s in [s];
    var inside := Escape(s.pair.value) + "\"" + (s.trail + rest);
    ReadSpacedKey(s, inside);
    ItemParts(s, rest);
    SkipsSpaces(s.lead, s.pair.key + (s.before + ("=" + (s.after + ("\"" + inside)))));
    ReadEscaped(s.pair.value, s.trail + rest);
    NotSpaces(s.pair.key, rest);
    SkipsSpaces(s.trail, rest);
  }

  lemma MoreStarts(items: seq<Spaced>, end: Option<string>)
    ensures MoreSpaced(items, end) == "" <==> items == [] && end.None?
    ensures MoreSpaced(items, end) != "" ==> MoreSpaced(items, end)[0] == ',' && MoreSpaced(items, end)[1..] == SpacedText(items, end)
  {
    hide SpacedItem;
  }

  /** Pairs are read back whatever white space surrounds them, with or without a comma after the last. */
  lemma {:induction false} SpacedLabelsRead(items: seq<Spaced>, end: Option<string>)
    requires Loose(items) && (end.Some? ==> Spaces(end.value))
    ensures ParseLabels(SpacedText(items, end)) == Ok(PairsOf(items))
  {
    hide SkipSpace, ReadPair, SpacedItem, Spaces, IsKey;
    if items == [] {
      var text := SpacedText(items, end);
      SkipNothing(text);
    } else {
      var more := MoreSpaced(items[1..], end);
      assert items[0] in items && Loose([items[0]]) && Loose(items[1..]);
      MoreStarts(items[1..], end);
      ReadSpacedPair(items[0], more);
      if more != "" {
        SpacedLabelsRead(items[1..], end);
      } else {
        assert PairsOf(items) == [items[0].pair];
      }
    }
  }

  lemma SkipNothing(text: string)
    requires Spaces(text)
    ensures SkipSpace(text) == ""
  {
    SkipsSpaces(text, "");
    assert text + "" == text;
  }

  // ---- what is refused ------------------------------------------------------------------------

  lemma {:induction false} ReadForeignEscape(value: string, c: char, rest: string)
    requires c !in {'n', '\\', '"'}
    ensures ReadValue(Escape(value) + ("\\" + ([c] + rest))) == Err(BadEscape)
  {
    hide EscapeChar;
    var bad := "\\" + ([c] + rest);
    if value == "" {
      assert Escape(value) + bad == bad && bad[1] == c;
    } else {
      hide ReadValue;
      assert Escape(value) + bad == EscapeChar(value[0]) + (Escape(value[1..]) + bad);
      ReadEscapedChar(value[0], Escape(value[1..]) + bad);
      ReadForeignEscape(value[1..], c, rest);
    }
  }

  /** Any escape but the three refuses the label set, wherever in a value it stands and whatever follows. */
  lemma ForeignEscapeRefused(key: string, value: string, c: char, rest: string)
    requires IsKey(key) && c !in {'n', '\\', '"'}
    ensures ParseLabels(key + ("=" + ("\"" + (Escape(value) + ("\\" + ([c] + rest)))))) == Err(BadEscape)
  {
    hide ReadKey, ReadValue, Escape, SkipSpace, IsKey;
    var s := Spaced(LabelPair(key, value), "", "", "", "");
    var inside := Escape(value) + ("\\" + ([c] + rest));
    var text := key + ("=" + ("\"" + inside));
    ReadSpacedKey(s, inside);
    assert s.before + ("=" + (s.after + ("\"" + inside))) == "=" + ("\"" + inside);
    NoSkip(text);
    ReadForeignEscape(value, c, rest);
  }

  /** So does a character that can stand neither in a key nor after one. */
  lemma ForeignKeyRefused(key: string, c: char, rest: string)
    requires forall k :: k in key ==> 'a' <= k <= 'z' || 'A' <= k <= 'Z' || '0' <= k <= '9' || k == '_'
    requires !('a' <= c <= 'z' || 'A' <= c <= 'Z' || '0' <= c <= '9' || c == '_' || c == '=') && !Spaces([c])
    ensures ParseLabels(key + ([c] + rest)) == Err(if key == "" then EmptyKey else MissingEquals)
  {
    hide SkipSpace, KeyLength;
    var text := key + ([c] + rest);
    KeyLengthOf(key, [c] + rest);
    assert key != "" ==> key[0] in key;
    NotSpace(c);
    assert text[0] == if key == "" then c else key[0];
    NoSkip(text);
    assert text[|key|..] == [c] + rest;
    NoSkip([c] + rest);
  }

  lemma NotSpace(c: char)
    requires !Spaces([c])
    ensures !IsAsciiSpace(c)
  {
  }

  // ---- reading lines -------------------------------------------------------------------------

  lemma CloseOverSpaces(plain: string, rest: string)
    requires Spaces(plain)
    ensures CloseBrace(plain + rest, false) == Shift(|plain|, CloseBrace(rest, false))
  {
    hide CloseBrace;
    CloseOverPlain(plain, rest);
  }

  lemma ShiftTwice(a: nat, b: nat, found: Option<nat>)
    ensures Shift(a, Shift(b, found)) == Shift(a + b, found)
  {
  }

  lemma CloseOverSpacedItem(s: Spaced, rest: string)
    requires Loose([s])
    ensures CloseBrace(SpacedItem(s) + rest, false) == Shift(|SpacedItem(s)|, CloseBrace(rest, false))
  {
    hide CloseBrace, Shift, Spaces, IsKey, Head, Quoted;
    assert s in [s];
    HeadPlain(s);
    var found := CloseBrace(rest, false);
    assert SpacedItem(s) + rest == Head(s) + (Quoted(s) + (s.trail + rest));
    CloseOverPlain(Head(s), Quoted(s) + (s.trail + rest));
    CloseOverQuoted(s, s.trail + rest);
    CloseOverSpaces(s.trail, rest);
    ShiftTwice(|Quoted(s)|, |s.trail|, found);
    ShiftTwice(|Head(s)|, |Quoted(s)| + |s.trail|, found);
  }

  lemma CloseOverQuoted(s: Spaced, rest: string)
    ensures CloseBrace(Quoted(s) + rest, false) == Shift(|Quoted(s)|, CloseBrace(rest, false))
  {
    hide CloseBrace, Shift, Escape;
    var value := Escape(s.pair.value) + "\"" + rest;
    assert Quoted(s) + rest == "\"" + value;
    QuoteOpens(value);
    CloseAfterValue(s.pair.value, rest);
    ShiftTwice(1, |Escape(s.pair.value)| + 1, CloseBrace(rest, false));
  }

  lemma HeadPlain(s: Spaced)
    requires Loose([s])
    ensures '"' !in Head(s) && '}' !in Head(s)
  {
    assert s in [s];
  }

  lemma {:induction false} CloseOverMoreSpaced(items: seq<Spaced>, end: Option<string>, rest: string)
    requires Loose(items) && (end.Some? ==> Spaces(end.value))
    ensures CloseBrace(MoreSpaced(items, end) + rest, false) == Shift(|MoreSpaced(items, end)|, CloseBrace(rest, false))
  {
    hide CloseBrace, Shift, SpacedItem, IsKey, Spaces;
    if items == [] {
      EndingPlain(end);
      CloseOverPlain(Ending(end), rest);
    } else {
      assert items[0] in items && Loose([items[0]]) && Loose(items[1..]);
      var item, more := SpacedItem(items[0]), MoreSpaced(items[1..], end);
      CloseOverMoreSpaced(items[1..], end, rest);
      assert MoreSpaced(items, end) + rest == "," + (item + (more + rest));
      CloseOverPlain(",", item + (more + rest));
      CloseOverSpacedItem(items[0], more + rest);
      ShiftTwice(|item|, |more|, CloseBrace(rest, false));
      ShiftTwice(1, |item| + |more|, CloseBrace(rest, false));
    }
  }

  lemma EndingPlain(end: Option<string>)
    requires end.Some? ==> Spaces(end.value)
    ensures '"' !in Ending(end) && '}' !in Ending(end)
  {
  }

  lemma CloseFindsSpaced(items: seq<Spaced>, end: Option<string>, rest: string)
    requires Loose(items) && (end.Some? ==> Spaces(end.value))
    ensures CloseBrace(SpacedText(items, end) + "}" + rest, false) == Some(|SpacedText(items, end)|)
  {
    hide CloseBrace, SpacedItem, IsKey;
    BraceCloses(rest);
    var text := SpacedText(items, end);
    assert text + "}" + rest == text + ("}" + rest);
    if items == [] {
      CloseOverSpaces(text, "}" + rest);
    } else {
      assert items[0] in items && Loose([items[0]]) && Loose(items[1..]);
      var more := MoreSpaced(items[1..], end);
      assert text + ("}" + rest) == SpacedItem(items[0]) + (more + ("}" + rest));
      CloseOverSpacedItem(items[0], more + ("}" + rest));
      CloseOverMoreSpaced(items[1..], end, "}" + rest);
    }
  }

  /** White space, or nothing, and anything at all after it: a timestamp, say. */
  predicate IsTail(tail: string) {
    tail == "" || IsSpace(tail[0])
  }

  lemma {:induction false} TrimEndCuts(text: string, kept: string, tail: string)
    requires text == kept + tail && kept != "" && !IsSpace(kept[|kept| - 1]) && IsTail(tail)
    ensures exists n :: 0 <= n <= |tail| && TrimEnd(text) == kept + tail[..n]
    decreases |tail|
  {
    if tail == "" {
      assert text == kept && TrimEnd(text) == kept + tail[..0];
    } else if IsSpace(text[|text| - 1]) {
      var less := tail[..|tail| - 1];
      assert text[..|text| - 1] == kept + less;
      TrimEndCuts(text[..|text| - 1], kept, less);
      var n :| 0 <= n <= |less| && TrimEnd(text[..|text| - 1]) == kept + less[..n];
      assert less[..n] == tail[..n];
    } else {
      assert TrimEnd(text) == kept + tail[..|tail|];
    }
  }

  lemma TrimCuts(text: string, kept: string, tail: string)
    requires text == kept + tail && kept != "" && !IsSpace(kept[0]) && !IsSpace(kept[|kept| - 1]) && IsTail(tail)
    ensures exists n :: 0 <= n <= |tail| && Trim(text) == kept + tail[..n] && IsTail(tail[..n])
  {
    TrimEndCuts(text, kept, tail);
    assert TrimStart(text) == text;
    forall n | 0 <= n <= |tail|
      ensures IsTail(tail[..n])
    {
    }
  }

  lemma {:induction false} TrimStartSpaces(spaces: string, rest: string)
    requires (forall c :: c in spaces ==> IsSpace(c)) && rest != "" && !IsSpace(rest[0])
    ensures TrimStart(spaces + rest) == rest
  {
    if spaces == "" {
      assert spaces + rest == rest;
    } else {
      assert (spaces + rest)[1..] == spaces[1..] + rest;
      TrimStartSpaces(spaces[1..], rest);
    }
  }

  lemma FirstWordLoose(gap: string, token: string, tail: string)
    requires (forall c :: c in gap ==> IsSpace(c)) && IsToken(token) && IsTail(tail)
    ensures FirstWord(gap + (token + tail)) == Some(token)
  {
    assert token[0] in token;
    TrimStartSpaces(gap, token + tail);
    WordLengthOf(token, tail);
    assert (token + tail)[..|token|] == token;
  }

  lemma LooseMeasurement(numbers: NumberText, m: Measurement, token: string, gap: string, tail: string)
    requires IsMetricName(m.metric) && Denotes(numbers, token, m.value)
    requires (forall c :: c in gap ==> IsSpace(c)) && IsTail(tail)
    ensures ReadMeasurement(numbers, m.metric, m.labels, gap + (token + tail)) == Some(m)
  {
    hide Trim, IsMetricName, IsToken, FirstWord, IsTail;
    MetricNamePlain(m.metric);
    FirstWordLoose(gap, token, tail);
  }

  /**
   A sample written with all that freedom still reads as itself: white space in its label set, a trailing
   comma, and anything after its value.
   */
  lemma LooseLabelledLine(
    numbers: NumberText, m: Measurement, token: string, items: seq<Spaced>, end: Option<string>, gap: string, tail: string)
    requires IsMetricName(m.metric) && Denotes(numbers, token, m.value) && m.labels == PairsOf(items)
    requires Loose(items) && (end.Some? ==> Spaces(end.value))
    requires (forall c :: c in gap ==> IsSpace(c)) && IsTail(tail)
    ensures ParseLine(numbers, m.metric + "{" + SpacedText(items, end) + "}" + gap + token + tail) == Some(m)
  {
    hide Trim, ParseLine, IsMetricName, IsSpace, SpacedText, PairsOf, Loose, Spaces;
    var text := SpacedText(items, end);
    var kept := m.metric + "{" + text + "}" + gap + token;
    Ends(m.metric, "{" + text + "}" + gap, token);
    TrimCuts(kept + tail, kept, tail);
    var n :| 0 <= n <= |tail| && Trim(kept + tail) == kept + tail[..n] && IsTail(tail[..n]);
    LooseRead(numbers, m, token, items, end, gap, tail[..n], kept + tail);
  }

  /** What is left of a line once it is trimmed. */
  lemma LooseRead(
    numbers: NumberText, m: Measurement, token: string, items: seq<Spaced>, end: Option<string>, gap: string, tail: string, untrimmed: string)
    requires IsMetricName(m.metric) && Denotes(numbers, token, m.value) && m.labels == PairsOf(items)
    requires Loose(items) && (end.Some? ==> Spaces(end.value))
    requires (forall c :: c in gap ==> IsSpace(c)) && IsTail(tail)
    requires Trim(untrimmed) == m.metric + "{" + SpacedText(items, end) + "}" + gap + token + tail
    ensures ParseLine(numbers, untrimmed) == Some(m)
  {
    hide Trim, IndexOf, CloseBrace, ParseLabels, IsMetricName, WordLength, ReadMeasurement, IsSpace, SpacedText, PairsOf, Loose, Spaces;
    var text := SpacedText(items, end);
    var line, value := Trim(untrimmed), gap + (token + tail);
    var inside := text + "}" + value;
    NameHead(m.metric);
    MetricNamePlain(m.metric);
    assert line == m.metric + ['{'] + inside;
    IndexAfterPlain(m.metric, '{', inside);
    assert line[|m.metric| + 1..] == inside && line[..|m.metric|] == m.metric;
    CloseFindsSpaced(items, end, value);
    assert inside[..|text|] == text && inside[|text| + 1..] == value;
    SpacedLabelsRead(items, end);
    LooseMeasurement(numbers, m, token, gap, tail);
  }

  lemma Ends(metric: string, middle: string, token: string)
    requires IsMetricName(metric) && IsToken(token)
    ensures var kept := metric + middle + token;
      kept != "" && kept[0] == metric[0] && !IsSpace(kept[0]) && !IsSpace(kept[|kept| - 1])
  {
    MetricNamePlain(metric);
    assert metric[0] in metric && token[|token| - 1] in token;
  }

  /** The same without labels. */
  lemma LoosePlainLine(numbers: NumberText, m: Measurement, token: string, gap: string, tail: string)
    requires IsMetricName(m.metric) && Denotes(numbers, token, m.value) && m.labels == []
    requires gap != "" && (forall c :: c in gap ==> IsSpace(c)) && IsTail(tail) && '{' !in tail
    ensures ParseLine(numbers, m.metric + gap + token + tail) == Some(m)
  {
    hide Trim, IndexOf, IsMetricName, WordLength, ReadMeasurement, IsSpace;
    var kept := m.metric + gap + token;
    Ends(m.metric, gap, token);
    TrimCuts(kept + tail, kept, tail);
    var n :| 0 <= n <= |tail| && Trim(kept + tail) == kept + tail[..n] && IsTail(tail[..n]);
    var value := gap + (token + tail[..n]);
    var line := m.metric + value;
    assert kept + tail[..n] == line;
    NameHead(m.metric);
    MetricNamePlain(m.metric);
    assert forall c :: c in gap ==> c != '{' by {
      BraceIsNoSpace();
    }
    assert '{' !in line;
    assert value[0] == gap[0] && gap[0] in gap;
    WordLengthOf(m.metric, value);
    assert line[..|m.metric|] == m.metric && line[|m.metric|..] == value;
    LooseMeasurement(numbers, m, token, gap, tail[..n]);
  }

  lemma BraceIsNoSpace()
    ensures !IsSpace('{')
  {
  }

  // ---- the characters -----------------------------------------------------------------------------

  /** A name is made of the letters, digits, `_` and `:` of ASCII, and does not start with a digit. */
  lemma MetricNameExactly(name: string)
    ensures IsMetricName(name) <==>
      && name != "" && !('0' <= name[0] <= '9')
      && forall c :: c in name ==> 'a' <= c <= 'z' || 'A' <= c <= 'Z' || '0' <= c <= '9' || c == '_' || c == ':'
  {
    if IsMetricName(name) {
      forall c | c in name
        ensures 'a' <= c <= 'z' || 'A' <= c <= 'Z' || '0' <= c <= '9' || c == '_' || c == ':'
      {
        var i :| 0 <= i < |name| && name[i] == c;
      }
    } else if name != "" && !('0' <= name[0] <= '9') {
      assert name[0] in name;
      var i :| 0 <= i < |name| && !IsMetricStart(name[i]) && !IsDigit(name[i]);
      assert name[i] in name;
    }
  }

  /** The White_Space property, code point by code point. */
  lemma WhiteSpace(c: char)
    ensures IsSpace(c) <==>
      c as int in {9, 10, 11, 12, 13, 32, 133, 160, 5760, 8192, 8193, 8194, 8195, 8196, 8197, 8198, 8199, 8200, 8201, 8202, 8232, 8233, 8239, 8287, 12288}
  {
  }
}
