/**
 Reading a Prometheus text exposition, and the proof that what an exporter prints is what is read:
 line by line, and for a whole document.
 */
module Exposition {
  import opened Prelude
  import opened Text
  import opened Labels

  /** A float as the code distinguishes it; rounding is not modelled. */
  datatype F64 = Finite(value: real) | Infinite(negative: bool) | NaN

  /** Number text is abstract: how a float and an integer are printed, and how text is read. */
  datatype NumberText = NumberText(
    float: F64 -> string,
    integer: nat -> string,
    parse: string -> Option<F64>)

  predicate IsToken(text: string) {
    text != "" && forall c :: c in text ==> !IsSpace(c) && c != '{'
  }

  /** A number text that prints without white space or braces and reads back as the number it stands for. */
  ghost predicate Denotes(numbers: NumberText, text: string, value: F64) {
    IsToken(text) && numbers.parse(text) == Some(value)
  }

  datatype Measurement = Measurement(metric: string, labels: seq<LabelPair>, value: F64)

  /** `Sample::label`: the first pair with that key. */
  function LabelOf(labels: seq<LabelPair>, key: string): Option<string> {
    if labels == [] then None
    else if labels[0].key == key then Some(labels[0].value)
    else LabelOf(labels[1..], key)
  }

  // ---- parse_line --------------------------------------------------------------------

  function IndexOf(text: string, c: char): (at: Option<nat>)
    ensures at.Some? ==> at.value < |text| && text[at.value] == c && c !in text[..at.value]
    ensures at.None? ==> c !in text
  {
    if text == "" then None
    else if text[0] == c then Some(0)
    else
      assert text == [text[0]] + text[1..];
      match IndexOf(text[1..], c)
      case None => None
      case Some(n) =>
        assert text[..n + 1] == [text[0]] + text[1..][..n];
        Some(n + 1)
  }

  /** Length of the leading run without white space. */
  function WordLength(text: string): (n: nat)
    ensures n <= |text|
  {
    if text == "" || IsSpace(text[0]) then 0 else 1 + WordLength(text[1..])
  }

  /** `text.split_whitespace().next()`. */
  function FirstWord(text: string): Option<string> {
    var rest := TrimStart(text);
    if rest == "" then None else Some(rest[..WordLength(rest)])
  }

  predicate IsMetricStart(c: char) {
    IsAlpha(c) || c == '_' || c == ':'
  }

  predicate IsMetricName(name: string) {
    && name != ""
    && IsMetricStart(name[0])
    && forall i :: 1 <= i < |name| ==> IsMetricStart(name[i]) || IsDigit(name[i])
  }

  /** The half of `parse_line` after the label set: the name and the value. */
  function ReadMeasurement(numbers: NumberText, metric: string, labels: seq<LabelPair>, rest: string): Option<Measurement> {
    var name := Trim(metric);
    if !IsMetricName(name) then None
    else
      match FirstWord(rest)
      case None => None
      case Some(word) =>
        match numbers.parse(word)
        case None => None
        case Some(value) => Some(Measurement(name, labels, value))
  }

  function ParseLine(numbers: NumberText, text: string): Option<Measurement> {
    var line := Trim(text);
    if line == "" || line[0] == '#' then None
    else
      match IndexOf(line, '{')
      case Some(open) =>
        (match CloseBrace(line[open + 1..], false)
         case None => None
         case Some(n) =>
           match ParseLabels(line[open + 1..][..n])
           case Err(_) => None
           case Ok(labels) => ReadMeasurement(numbers, line[..open], labels, line[open + 1..][n + 1..]))
      case None =>
        if WordLength(line) == |line| then None
        else ReadMeasurement(numbers, line[..WordLength(line)], [], line[WordLength(line)..])
  }

  /** The scanning half of `parse_line` as the source runs it, over indices. */
  method ReadLine(numbers: NumberText, text: string) returns (sample: Option<Measurement>)
    ensures sample == ParseLine(numbers, text)
  {
    hide CloseBrace, ParseLabels, ReadMeasurement, WordLength, Trim;
    var line := Trim(text);
    if line == "" || line[0] == '#' {
      return None;
    }
    match IndexOf(line, '{') {
      case Some(open) =>
        var close := FindCloseBrace(line, open);
        if close.None? {
          return None;
        }
        var n := close.value - (open + 1);
        assert line[open + 1..][..n] == line[open + 1..close.value];
        assert line[open + 1..][n + 1..] == line[close.value + 1..];
        var labels := ParseLabelText(line[open + 1..close.value]);
        if labels.Err? {
          return None;
        }
        sample := ReadMeasurement(numbers, line[..open], labels.value, line[close.value + 1..]);
      case None =>
        var split := WordLength(line);
        if split == |line| {
          return None;
        }
        sample := ReadMeasurement(numbers, line[..split], [], line[split..]);
    }
  }

  function Kept(sample: Option<Measurement>): seq<Measurement> {
    match sample
    case Some(value) => [value]
    case None => []
  }

  function ParseLines(numbers: NumberText, lines: seq<string>): seq<Measurement> {
    if lines == [] then [] else Kept(ParseLine(numbers, lines[0])) + ParseLines(numbers, lines[1..])
  }

  /** `Exposition::parse`. */
  function Parse(numbers: NumberText, text: string): seq<Measurement> {
    ParseLines(numbers, Lines(text))
  }

  /** `Exposition::value` (with `quantile`) and `Exposition::labeled_value`: the first match. */
  function ValueOf(samples: seq<Measurement>, metric: string, selector: Option<LabelPair>): Option<F64> {
    if samples == [] then None
    else if samples[0].metric == metric
      && (selector.Some? ==> LabelOf(samples[0].labels, selector.value.key) == Some(selector.value.value))
    then Some(samples[0].value)
    else ValueOf(samples[1..], metric, selector)
  }

  // ---- printing a line -----------------------------------------------------------------

  function LabelSet(pairs: seq<LabelPair>): string {
    if pairs == [] then "" else "{" + Items(pairs) + "}"
  }

  function SampleLine(metric: string, pairs: seq<LabelPair>, token: string): string {
    metric + LabelSet(pairs) + " " + token
  }

  ghost predicate PrintableLine(numbers: NumberText, m: Measurement, token: string) {
    IsMetricName(m.metric) && Printable(m.labels) && Denotes(numbers, token, m.value)
  }

  lemma {:induction false} WordLengthOf(word: string, rest: string)
    requires (forall c :: c in word ==> !IsSpace(c)) && (rest == "" || IsSpace(rest[0]))
    ensures WordLength(word + rest) == |word|
  {
    if word == "" {
      assert word + rest == rest;
    } else {
      assert (word + rest)[1..] == word[1..] + rest;
      WordLengthOf(word[1..], rest);
    }
  }

  lemma FirstWordOf(token: string)
    requires IsToken(token)
    ensures FirstWord(" " + token) == Some(token)
  {
    assert (" " + token)[1..] == token;
    assert token[0] in token;
    assert TrimStart(token) == token;
    assert TrimStart(" " + token) == token;
    WordLengthOf(token, "");
    assert token + "" == token && token[..|token|] == token;
  }

  lemma MetricNamePlain(name: string)
    requires IsMetricName(name)
    ensures forall c :: c in name ==> !IsSpace(c) && c != '{' && c != '#' && c != '\n'
    ensures Trim(name) == name
  {
    forall c | c in name
      ensures !IsSpace(c) && c != '{' && c != '#' && c != '\n'
    {
      var i :| 0 <= i < |name| && name[i] == c;
    }
    assert name[0] in name && name[|name| - 1] in name;
    TrimKeeps(name);
  }

  lemma {:induction false} IndexAfterPlain(plain: string, c: char, rest: string)
    requires c !in plain
    ensures IndexOf(plain + [c] + rest, c) == Some(|plain|)
  {
    var text := plain + [c] + rest;
    if plain != "" {
      assert text[1..] == plain[1..] + [c] + rest;
      IndexAfterPlain(plain[1..], c, rest);
    }
  }

  lemma TokenEnds(line: string, metric: string, middle: string, token: string)
    requires IsMetricName(metric) && IsToken(token) && line == metric + middle + token
    ensures Trim(line) == line && line[0] == metric[0] && StripReturn(line) == line
  {
    MetricNamePlain(metric);
    assert metric[0] in metric && token[|token| - 1] in token;
    assert line[|line| - 1] == token[|token| - 1];
    TrimKeeps(line);
  }

  lemma ReadPrinted(numbers: NumberText, m: Measurement, token: string)
    requires PrintableLine(numbers, m, token)
    ensures ReadMeasurement(numbers, m.metric, m.labels, " " + token) == Some(m)
  {
    hide Trim, IsMetricName, IsToken, FirstWord;
    MetricNamePlain(m.metric);
    FirstWordOf(token);
  }

  lemma NameHead(name: string)
    requires IsMetricName(name)
    ensures name != "" && name[0] != '#'
  {
    MetricNamePlain(name);
    assert name[0] in name;
  }

  lemma LabelledLine(numbers: NumberText, m: Measurement, token: string)
    requires PrintableLine(numbers, m, token) && m.labels != []
    ensures ParseLine(numbers, SampleLine(m.metric, m.labels, token)) == Some(m)
  {
    hide Trim, IndexOf, CloseBrace, ParseLabels, IsMetricName, IsToken, WordLength, Items, Printable, ReadMeasurement, StripReturn, IsSpace;
    var line := SampleLine(m.metric, m.labels, token);
    var value, items := " " + token, Items(m.labels);
    var inside := items + "}" + value;
    TokenEnds(line, m.metric, LabelSet(m.labels) + " ", token);
    NameHead(m.metric);
    MetricNamePlain(m.metric);
    assert line == m.metric + ['{'] + inside;
    IndexAfterPlain(m.metric, '{', inside);
    assert line[|m.metric| + 1..] == inside && line[..|m.metric|] == m.metric;
    CloseFindsPrinted(m.labels, value);
    assert inside[..|items|] == items && inside[|items| + 1..] == value;
    LabelsRoundTrip(m.labels);
    ReadPrinted(numbers, m, token);
  }

  lemma PlainLine(numbers: NumberText, m: Measurement, token: string)
    requires PrintableLine(numbers, m, token) && m.labels == []
    ensures ParseLine(numbers, SampleLine(m.metric, m.labels, token)) == Some(m)
  {
    hide Trim, IndexOf, CloseBrace, ParseLabels, IsMetricName, WordLength, ReadMeasurement, StripReturn, IsSpace;
    var line := SampleLine(m.metric, m.labels, token);
    var value := " " + token;
    TokenEnds(line, m.metric, " ", token);
    NameHead(m.metric);
    MetricNamePlain(m.metric);
    assert line == m.metric + value;
    assert '{' !in line;
    BlankIsSpace(token);
    WordLengthOf(m.metric, value);
    assert line[..|m.metric|] == m.metric && line[|m.metric|..] == value;
    ReadPrinted(numbers, m, token);
  }

  lemma BlankIsSpace(token: string)
    ensures IsSpace((" " + token)[0])
  {
  }

  /**
   The line round trip: any metric name, any identifier keys, any values whatever and any number
   token come back as exactly the sample printed.
   */
  lemma LineRoundTrip(numbers: NumberText, m: Measurement, token: string)
    requires PrintableLine(numbers, m, token)
    ensures ParseLine(numbers, SampleLine(m.metric, m.labels, token)) == Some(m)
    ensures StripReturn(SampleLine(m.metric, m.labels, token)) == SampleLine(m.metric, m.labels, token)
  {
    hide ParseLine, IsMetricName, IsToken, StripReturn, Printable;
    var line := SampleLine(m.metric, m.labels, token);
    assert line == m.metric + (LabelSet(m.labels) + " ") + token;
    TokenEnds(line, m.metric, LabelSet(m.labels) + " ", token);
    if m.labels == [] {
      PlainLine(numbers, m, token);
    } else {
      LabelledLine(numbers, m, token);
    }
  }

  // ---- documents ----------------------------------------------------------------------

  /** Nothing in a comment line reaches a sample. */
  lemma CommentDropped(numbers: NumberText, line: string)
    requires line != "" && line[0] == '#'
    ensures ParseLine(numbers, StripReturn(line)) == None
  {
    hide IndexOf, CloseBrace, ParseLabels, WordLength, ReadMeasurement;
    var text := StripReturn(line);
    assert text[0] == '#';
    TrimKeepsHead(text);
  }

  lemma {:induction false} TrimKeepsHead(text: string)
    requires text != "" && !IsSpace(text[0])
    ensures Trim(text) != "" && Trim(text)[0] == text[0]
  {
    if IsSpace(text[|text| - 1]) {
      TrimKeepsHead(text[..|text| - 1]);
    }
  }

  lemma ParseOneMore(numbers: NumberText, line: string, rest: string)
    requires '\n' !in line
    ensures Parse(numbers, line + "\n" + rest) == Kept(ParseLine(numbers, StripReturn(line))) + Parse(numbers, rest)
  {
    hide ParseLine, Lines, StripReturn;
    LinesOf(line, rest);
    var lines := [StripReturn(line)] + Lines(rest);
    assert lines[1..] == Lines(rest);
  }

  lemma ParseComment(numbers: NumberText, line: string, rest: string)
    requires '\n' !in line && line != "" && line[0] == '#'
    ensures Parse(numbers, line + "\n" + rest) == Parse(numbers, rest)
  {
    hide ParseLine, Lines, StripReturn, Parse;
    ParseOneMore(numbers, line, rest);
    CommentDropped(numbers, line);
  }

  lemma {:induction false} ItemsOneLine(pairs: seq<LabelPair>)
    requires Printable(pairs)
    ensures '\n' !in Items(pairs)
    ensures '\n' !in MoreItems(pairs)
  {
    if pairs != [] {
      var pair := pairs[0];
      assert pair in pairs;
      ItemsOneLine(pairs[1..]);
      EscapeOneLine(pair.value);
      assert '\n' !in pair.key;
    }
  }

  /** A printed sample is one line: no label value can split it. */
  lemma SampleLineOneLine(numbers: NumberText, m: Measurement, token: string)
    requires PrintableLine(numbers, m, token)
    ensures '\n' !in SampleLine(m.metric, m.labels, token)
  {
    hide Items, IsMetricName;
    MetricNamePlain(m.metric);
    ItemsOneLine(m.labels);
    assert IsSpace('\n');
  }

  lemma ParseSample(numbers: NumberText, m: Measurement, token: string, rest: string)
    requires PrintableLine(numbers, m, token)
    ensures Parse(numbers, SampleLine(m.metric, m.labels, token) + "\n" + rest) == [m] + Parse(numbers, rest)
  {
    hide ParseLine, Lines, StripReturn, Parse, PrintableLine, SampleLine;
    SampleLineOneLine(numbers, m, token);
    LineRoundTrip(numbers, m, token);
    ParseOneMore(numbers, SampleLine(m.metric, m.labels, token), rest);
  }
}
