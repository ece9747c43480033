/**
 Label sets of the Prometheus text exposition format 0.0.4: how the exporters print them, and the
 two scanners that read them back. The specifications consume the text that is left; the methods
 walk an index over it, as the source does.
 */
module Labels {
  import opened Prelude
  import opened Text

  datatype LabelPair = LabelPair(key: string, value: string)

  // ---- printing ---------------------------------------------------------------

  function EscapeChar(c: char): string {
    if c == '\\' then "\\\\" else if c == '"' then "\\\"" else if c == '\n' then "\\n" else [c]
  }

  function Escape(value: string): string {
    if value == "" then "" else EscapeChar(value[0]) + Escape(value[1..])
  }

  /** `escape` / `escape_label_value`. */
  method EscapeText(value: string) returns (out: string)
    ensures out == Escape(value)
  {
    hide EscapeChar, Escape;
    out := "";
    assert value[0..] == value && "" + Escape(value) == Escape(value);
    for i := 0 to |value|
      invariant out + Escape(value[i..]) == Escape(value)
    {
      EscapeNext(value, i);
      Assoc(out, EscapeChar(value[i]), Escape(value[i + 1..]));
      out := out + EscapeChar(value[i]);
    }
    EscapeEnds(value);
    assert out + "" == out;
  }

  lemma EscapeNext(value: string, i: nat)
    requires i < |value|
    ensures Escape(value[i..]) == EscapeChar(value[i]) + Escape(value[i + 1..])
  {
    hide EscapeChar;
    assert value[i..][0] == value[i] && value[i..][1..] == value[i + 1..];
  }

  lemma EscapeEnds(value: string)
    ensures Escape(value[|value|..]) == ""
  {
  }

  function Item(pair: LabelPair): string {
    pair.key + "=\"" + Escape(pair.value) + "\""
  }

  function MoreItems(pairs: seq<LabelPair>): string {
    if pairs == [] then "" else "," + Item(pairs[0]) + MoreItems(pairs[1..])
  }

  /** The inside of a label set: `a="1",b="2"`. */
  function Items(pairs: seq<LabelPair>): string {
    if pairs == [] then "" else Item(pairs[0]) + MoreItems(pairs[1..])
  }

  lemma {:induction false} MoreItemsSnoc(pairs: seq<LabelPair>, pair: LabelPair)
    ensures MoreItems(pairs + [pair]) == MoreItems(pairs) + "," + Item(pair)
  {
    hide Item;
    if pairs == [] {
      assert (pairs + [pair])[1..] == [];
    } else {
      assert (pairs + [pair])[1..] == pairs[1..] + [pair];
      MoreItemsSnoc(pairs[1..], pair);
    }
  }

  lemma ItemsSnoc(pairs: seq<LabelPair>, pair: LabelPair)
    requires pairs != []
    ensures Items(pairs + [pair]) == Items(pairs) + "," + Item(pair)
  {
    hide Item;
    assert (pairs + [pair])[1..] == pairs[1..] + [pair];
    MoreItemsSnoc(pairs[1..], pair);
  }

  predicate IsKeyChar(c: char) {
    IsAlpha(c) || IsDigit(c) || c == '_'
  }

  predicate IsKey(key: string) {
    key != "" && forall c :: c in key ==> IsKeyChar(c)
  }

  ghost predicate Printable(pairs: seq<LabelPair>) {
    forall pair :: pair in pairs ==> IsKey(pair.key)
  }

  // ---- close_brace -------------------------------------------------------------

  function Shift(n: nat, found: Option<nat>): Option<nat> {
    match found
    case Some(at) => Some(n + at)
    case None => None
  }

  /** Offset of the first `}` outside quotes; a backslash inside quotes hides the next character. */
  function CloseBrace(rest: string, inQuotes: bool): (found: Option<nat>)
    ensures found.Some? ==> found.value < |rest| && rest[found.value] == '}'
    decreases |rest|
  {
    if rest == "" then None
    else if inQuotes && rest[0] == '\\' then
      if |rest| == 1 then None else Shift(2, CloseBrace(rest[2..], true))
    else if rest[0] == '"' then Shift(1, CloseBrace(rest[1..], !inQuotes))
    else if rest[0] == '}' && !inQuotes then Some(0)
    else Shift(1, CloseBrace(rest[1..], inQuotes))
  }

  /** Where the scan stands at `index`; past the end it has found nothing. */
  function ScanFrom(line: string, index: nat, inQuotes: bool): Option<nat> {
    if index > |line| then None else Shift(index, CloseBrace(line[index..], inQuotes))
  }

  lemma ScanStep(line: string, index: nat, inQuotes: bool)
    requires index < |line|
    ensures ScanFrom(line, index, inQuotes) ==
      if inQuotes && line[index] == '\\' then ScanFrom(line, index + 2, true)
      else if line[index] == '"' then ScanFrom(line, index + 1, !inQuotes)
      else if line[index] == '}' && !inQuotes then Some(index)
      else ScanFrom(line, index + 1, inQuotes)
  {
    var rest := line[index..];
    assert rest[1..] == line[index + 1..];
    if |rest| > 1 {
      assert rest[2..] == line[index + 2..];
    }
  }

  /** `close_brace`, for the brace at `open`. */
  method FindCloseBrace(line: string, open: nat) returns (close: Option<nat>)
    requires open < |line|
    ensures close == Shift(open + 1, CloseBrace(line[open + 1..], false))
  {
    hide CloseBrace;
    var index := open + 1;
    var inQuotes := false;
    while index < |line|
      invariant ScanFrom(line, index, inQuotes) == ScanFrom(line, open + 1, false)
      decreases |line| - index
    {
      ScanStep(line, index, inQuotes);
      if inQuotes && line[index] == '\\' {
        index := index + 1;
      } else if line[index] == '"' {
        inQuotes := !inQuotes;
      } else if line[index] == '}' && !inQuotes {
        return Some(index);
      }
      index := index + 1;
    }
    NothingLeft(line, index, inQuotes);
    close := None;
  }

  lemma NothingLeft(line: string, index: nat, inQuotes: bool)
    requires index >= |line|
    ensures ScanFrom(line, index, inQuotes) == None
  {
  }

  // ---- parse_labels ---------------------------------------------------------------

  /** The source answers `None` for all of these; the model keeps apart which exit was taken. */
  datatype Fault =
    | EmptyKey
    | MissingEquals
    | MissingQuote
    | UnterminatedValue
    | DanglingEscape
    | BadEscape
    | JunkAfterValue

  function SkipSpace(rest: string): (left: string)
    ensures |left| <= |rest|
    ensures left != "" ==> !IsAsciiSpace(left[0])
  {
    if rest != "" && IsAsciiSpace(rest[0]) then SkipSpace(rest[1..]) else rest
  }

  function KeyLength(rest: string): (n: nat)
    ensures n <= |rest| && forall i :: 0 <= i < n ==> IsKeyChar(rest[i])
  {
    if rest != "" && IsKeyChar(rest[0]) then 1 + KeyLength(rest[1..]) else 0
  }

  function Unescaped(c: char): Option<char> {
    if c == 'n' then Some('\n') else if c == '\\' then Some('\\') else if c == '"' then Some('"') else None
  }

  function Prepend(text: string, read: Result<(string, string), Fault>): Result<(string, string), Fault> {
    match read
    case Ok((value, left)) => Ok((text + value, left))
    case Err(fault) => Err(fault)
  }

  /** Reads a value from just after its opening quote; returns it with the text after the closing one. */
  function ReadValue(rest: string): (read: Result<(string, string), Fault>)
    ensures read.Ok? ==> |read.value.1| < |rest|
    decreases |rest|
  {
    if rest == "" then Err(UnterminatedValue)
    else if rest[0] == '"' then Ok(("", rest[1..]))
    else if rest[0] == '\\' then
      if |rest| == 1 then Err(DanglingEscape)
      else
        match Unescaped(rest[1])
        case None => Err(BadEscape)
        case Some(c) => Prepend([c], ReadValue(rest[2..]))
    else Prepend([rest[0]], ReadValue(rest[1..]))
  }

  function Cons(pair: LabelPair, more: Result<seq<LabelPair>, Fault>): Result<seq<LabelPair>, Fault> {
    match more
    case Ok(pairs) => Ok([pair] + pairs)
    case Err(fault) => Err(fault)
  }

  /** A key, `=`, and an opening quote: the key and the text inside the quote. */
  function ReadKey(rest: string): (read: Result<(string, string), Fault>)
    ensures read.Ok? ==> |read.value.1| < |rest|
  {
    var n := KeyLength(rest);
    if n == 0 then Err(EmptyKey)
    else
      var equals := SkipSpace(rest[n..]);
      if equals == "" || equals[0] != '=' then Err(MissingEquals)
      else
        var quote := SkipSpace(equals[1..]);
        if quote == "" || quote[0] != '"' then Err(MissingQuote)
        else Ok((rest[..n], quote[1..]))
  }

  /** One `key="value"` and the text after its closing quote. */
  function ReadPair(rest: string): (read: Result<(LabelPair, string), Fault>)
    ensures read.Ok? ==> |read.value.1| < |rest|
  {
    match ReadKey(rest)
    case Err(fault) => Err(fault)
    case Ok((key, inside)) =>
      match ReadValue(inside)
      case Err(fault) => Err(fault)
      case Ok((value, after)) => Ok((LabelPair(key, value), after))
  }

  function ParseLabels(text: string): Result<seq<LabelPair>, Fault>
    decreases |text|
  {
    var start := SkipSpace(text);
    if start == "" then Ok([])
    else
      match ReadPair(start)
      case Err(fault) => Err(fault)
      case Ok((pair, after)) =>
        var next := SkipSpace(after);
        if next == "" then Ok([pair])
        else if next[0] != ',' then Err(JunkAfterValue)
        else Cons(pair, ParseLabels(next[1..]))
  }

  // ---- the index-walking parser ------------------------------------------------------

  method SkipSpaceAt(text: string, from: nat) returns (index: nat)
    requires from <= |text|
    ensures from <= index <= |text| && text[index..] == SkipSpace(text[from..])
  {
    index := from;
    while index < |text| && IsAsciiSpace(text[index])
      invariant from <= index <= |text|
      invariant SkipSpace(text[index..]) == SkipSpace(text[from..])
    {
      assert text[index..][1..] == text[index + 1..];
      index := index + 1;
    }
  }

  method KeyEndAt(text: string, from: nat) returns (index: nat)
    requires from <= |text|
    ensures from <= index <= |text| && index - from == KeyLength(text[from..])
  {
    index := from;
    while index < |text| && IsKeyChar(text[index])
      invariant from <= index <= |text|
      invariant index - from + KeyLength(text[index..]) == KeyLength(text[from..])
    {
      assert text[index..][1..] == text[index + 1..];
      index := index + 1;
    }
  }

  lemma Tail(text: string, index: nat)
    requires index < |text|
    ensures text[index..] != "" && text[index..][0] == text[index] && text[index..][1..] == text[index + 1..]
  {
  }

  lemma ReadValueStep(text: string, index: nat)
    requires index <= |text|
    ensures ReadValue(text[index..]) ==
      if index == |text| then Err(UnterminatedValue)
      else if text[index] == '"' then Ok(("", text[index + 1..]))
      else if text[index] == '\\' then
        if index + 1 == |text| then Err(DanglingEscape)
        else if Unescaped(text[index + 1]) == None then Err(BadEscape)
        else Prepend([Unescaped(text[index + 1]).value], ReadValue(text[index + 2..]))
      else Prepend([text[index]], ReadValue(text[index + 1..]))
  {
    if index < |text| {
      Tail(text, index);
      if index + 1 < |text| {
        assert text[index..][1] == text[index + 1] && text[index..][2..] == text[index + 2..];
      }
    }
  }

  /** Copies a run of plain characters. */
  method PlainRunAt(text: string, from: nat) returns (index: nat)
    requires from < |text| && text[from] != '"' && text[from] != '\\'
    ensures from < index <= |text|
    ensures ReadValue(text[from..]) == Prepend(text[from..index], ReadValue(text[index..]))
  {
    hide ReadValue, Prepend;
    index := from;
    PrependNothing(ReadValue(text[from..]));
    assert text[from..from] == "";
    while index < |text| && text[index] != '"' && text[index] != '\\'
      invariant from <= index <= |text|
      invariant index == from ==> text[index] != '"' && text[index] != '\\'
      invariant ReadValue(text[from..]) == Prepend(text[from..index], ReadValue(text[index..]))
    {
      ReadValueStep(text, index);
      PrependTwice(text[from..index], [text[index]], ReadValue(text[index + 1..]));
      assert text[from..index] + [text[index]] == text[from..index + 1];
      index := index + 1;
    }
  }

  /** The value loop of `parse_labels`: runs of plain text are copied whole. */
  method ReadValueAt(text: string, from: nat) returns (fault: Option<Fault>, value: string, index: nat)
    requires from <= |text|
    ensures fault.Some? ==> ReadValue(text[from..]) == Err(fault.value)
    ensures fault.None? ==> from < index <= |text| && ReadValue(text[from..]) == Ok((value, text[index..]))
  {
    hide ReadValue;
    value := "";
    index := from;
    PrependNothing(ReadValue(text[index..]));
    while true
      invariant from <= index <= |text|
      invariant Prepend(value, ReadValue(text[index..])) == ReadValue(text[from..])
      decreases |text| - index
    {
      ReadValueStep(text, index);
      if index == |text| {
        return Some(UnterminatedValue), value, index;
      } else if text[index] == '"' {
        assert value + "" == value;
        index := index + 1;
        return None, value, index;
      } else if text[index] == '\\' {
        if index + 1 == |text| {
          return Some(DanglingEscape), value, index;
        }
        var plain := Unescaped(text[index + 1]);
        if plain.None? {
          return Some(BadEscape), value, index;
        }
        PrependTwice(value, [plain.value], ReadValue(text[index + 2..]));
        value := value + [plain.value];
        index := index + 2;
      } else {
        var start := index;
        index := PlainRunAt(text, start);
        PrependTwice(value, text[start..index], ReadValue(text[index..]));
        value := value + text[start..index];
      }
    }
  }

  lemma PrependNothing(read: Result<(string, string), Fault>)
    ensures Prepend("", read) == read
  {
    match read {
      case Ok((value, _)) => assert "" + value == value;
      case Err(_) =>
    }
  }

  lemma PrependTwice(a: string, b: string, read: Result<(string, string), Fault>)
    ensures Prepend(a, Prepend(b, read)) == Prepend(a + b, read)
  {
    match read {
      case Ok((value, _)) => assert a + (b + value) == (a + b) + value;
      case Err(_) =>
    }
  }

  method ReadKeyAt(text: string, start: nat) returns (result: Result<string, Fault>, inside: nat)
    requires start < |text|
    ensures result.Err? ==> ReadKey(text[start..]) == Err(result.error)
    ensures result.Ok? ==> start < inside <= |text| && ReadKey(text[start..]) == Ok((result.value, text[inside..]))
  {
    hide SkipSpace, KeyLength;
    inside := start;
    var keyEnd := KeyEndAt(text, start);
    var key := text[start..keyEnd];
    var rest := text[start..];
    assert rest[..keyEnd - start] == key && rest[keyEnd - start..] == text[keyEnd..];
    if keyEnd == start {
      return Err(EmptyKey), start;
    }
    var equals := SkipSpaceAt(text, keyEnd);
    if equals == |text| || text[equals] != '=' {
      return Err(MissingEquals), start;
    }
    Tail(text, equals);
    var quote := SkipSpaceAt(text, equals + 1);
    if quote == |text| || text[quote] != '"' {
      return Err(MissingQuote), start;
    }
    Tail(text, quote);
    return Ok(key), quote + 1;
  }

  method ReadPairAt(text: string, start: nat) returns (result: Result<LabelPair, Fault>, end: nat)
    requires start < |text|
    ensures result.Err? ==> ReadPair(text[start..]) == Err(result.error)
    ensures result.Ok? ==> start < end <= |text| && ReadPair(text[start..]) == Ok((result.value, text[end..]))
  {
    hide ReadKey, ReadValue;
    var key, inside := ReadKeyAt(text, start);
    if key.Err? {
      return Err(key.error), start;
    }
    var fault, value;
    fault, value, end := ReadValueAt(text, inside);
    result := if fault.Some? then Err(fault.value) else Ok(LabelPair(key.value, value));
  }

  lemma ParseLabelsStep(text: string, index: nat, start: nat)
    requires index <= start <= |text| && SkipSpace(text[index..]) == text[start..]
    ensures ParseLabels(text[index..]) ==
      if start == |text| then Ok([])
      else
        match ReadPair(text[start..])
        case Err(fault) => Err(fault)
        case Ok((pair, after)) =>
          var next := SkipSpace(after);
          if next == "" then Ok([pair])
          else if next[0] != ',' then Err(JunkAfterValue)
          else Cons(pair, ParseLabels(next[1..]))
  {
    hide SkipSpace, ReadPair;
  }

  /** `parse_labels`. */
  method ParseLabelText(text: string) returns (result: Result<seq<LabelPair>, Fault>)
    ensures result == ParseLabels(text)
  {
    hide SkipSpace, ReadPair, ParseLabels, Cons;
    var labels: seq<LabelPair> := [];
    var index := 0;
    assert text[0..] == text;
    AfterNothing(ParseLabels(text));
    while true
      invariant 0 <= index <= |text|
      invariant ParseLabels(text) == After(labels, ParseLabels(text[index..]))
      decreases |text| - index
    {
      var start := SkipSpaceAt(text, index);
      ParseLabelsStep(text, index, start);
      if start >= |text| {
        assert labels + [] == labels;
        return Ok(labels);
      }
      var pair, end := ReadPairAt(text, start);
      if pair.Err? {
        return Err(pair.error);
      }
      var next := SkipSpaceAt(text, end);
      if next == |text| {
        return Ok(labels + [pair.value]);
      }
      Tail(text, next);
      if text[next] != ',' {
        return Err(JunkAfterValue);
      }
      AfterCons(labels, pair.value, ParseLabels(text[next + 1..]));
      labels := labels + [pair.value];
      index := next + 1;
    }
  }

  function After(labels: seq<LabelPair>, more: Result<seq<LabelPair>, Fault>): Result<seq<LabelPair>, Fault> {
    match more
    case Ok(pairs) => Ok(labels + pairs)
    case Err(fault) => Err(fault)
  }

  lemma AfterNothing(more: Result<seq<LabelPair>, Fault>)
    ensures After([], more) == more
  {
    match more {
      case Ok(pairs) => assert [] + pairs == pairs;
      case Err(_) =>
    }
  }

  lemma AfterCons(labels: seq<LabelPair>, pair: LabelPair, more: Result<seq<LabelPair>, Fault>)
    ensures After(labels, Cons(pair, more)) == After(labels + [pair], more)
  {
    match more {
      case Ok(pairs) => assert labels + ([pair] + pairs) == (labels + [pair]) + pairs;
      case Err(_) =>
    }
  }

  // ---- round trip ------------------------------------------------------------------------

  /** No escaped character is a raw line feed. */
  lemma {:induction false} EscapeOneLine(value: string)
    ensures '\n' !in Escape(value)
  {
    if value != "" {
      EscapeOneLine(value[1..]);
      var head := EscapeChar(value[0]);
      assert '\n' !in head;
    }
  }

  lemma ReadEscapedChar(c: char, rest: string)
    ensures ReadValue(EscapeChar(c) + rest) == Prepend([c], ReadValue(rest))
  {
    var text := EscapeChar(c) + rest;
    assert text[|EscapeChar(c)|..] == rest;
    if |EscapeChar(c)| == 2 {
      assert text[0] == '\\' && text[1] == EscapeChar(c)[1];
    }
  }

  /** A printed value with its closing quote, one character unfolded. */
  lemma EscapeStep(value: string, rest: string)
    requires value != ""
    ensures Escape(value) + "\"" + rest == EscapeChar(value[0]) + (Escape(value[1..]) + "\"" + rest)
    ensures |Escape(value)| == |EscapeChar(value[0])| + |Escape(value[1..])|
  {
    hide EscapeChar;
    Assoc(EscapeChar(value[0]), Escape(value[1..]), "\"");
    Assoc(EscapeChar(value[0]), Escape(value[1..]) + "\"", rest);
  }

  lemma QuoteEnds(rest: string)
    ensures Escape("") + "\"" + rest == "\"" + rest && ("\"" + rest)[1..] == rest
  {
  }

  /** A printed value is read back as it was, up to exactly its closing quote. */
  lemma {:induction false} ReadEscaped(value: string, rest: string)
    ensures ReadValue(Escape(value) + "\"" + rest) == Ok((value, rest))
  {
    if value == "" {
      QuoteEnds(rest);
    } else {
      hide ReadValue, Escape, EscapeChar;
      EscapeStep(value, rest);
      ReadEscapedChar(value[0], Escape(value[1..]) + "\"" + rest);
      ReadEscaped(value[1..], rest);
      assert value == [value[0]] + value[1..];
    }
  }

  lemma CloseOverEscapedChar(c: char, rest: string)
    ensures CloseBrace(EscapeChar(c) + rest, true) == Shift(|EscapeChar(c)|, CloseBrace(rest, true))
  {
    var text := EscapeChar(c) + rest;
    assert text[|EscapeChar(c)|..] == rest;
    if |EscapeChar(c)| == 2 {
      assert text[0] == '\\';
    }
  }

  lemma QuoteCloses(rest: string)
    ensures Escape("") == ""
    ensures CloseBrace(Escape("") + "\"" + rest, true) == Shift(1, CloseBrace(rest, false))
  {
    QuoteEnds(rest);
    assert CloseBrace("\"" + rest, true) == Shift(1, CloseBrace(rest, false));
  }

  /** The brace scanner crosses a printed value and leaves the quotes where it ends. */
  lemma {:induction false} CloseAfterValue(value: string, rest: string)
    ensures CloseBrace(Escape(value) + "\"" + rest, true) == Shift(|Escape(value)| + 1, CloseBrace(rest, false))
  {
    hide CloseBrace, Escape, EscapeChar;
    if value == "" {
      QuoteCloses(rest);
    } else {
      EscapeStep(value, rest);
      CloseOverEscapedChar(value[0], Escape(value[1..]) + "\"" + rest);
      CloseAfterValue(value[1..], rest);
    }
  }

  /** Outside quotes the brace scanner passes over anything that is neither a quote nor a brace. */
  lemma {:induction false} CloseOverPlain(plain: string, rest: string)
    requires '"' !in plain && '}' !in plain
    ensures CloseBrace(plain + rest, false) == Shift(|plain|, CloseBrace(rest, false))
  {
    if plain == "" {
      assert plain + rest == rest;
    } else {
      assert (plain + rest)[1..] == plain[1..] + rest;
      CloseOverPlain(plain[1..], rest);
    }
  }

  lemma CloseOverItem(pair: LabelPair, rest: string)
    requires IsKey(pair.key)
    ensures CloseBrace(Item(pair) + rest, false) == Shift(|Item(pair)|, CloseBrace(rest, false))
  {
    hide CloseBrace, Escape;
    var value := Escape(pair.value);
    var inside := value + "\"" + rest;
    var quoted := "\"" + inside;
    var plain := pair.key + "=";
    assert Item(pair) + rest == plain + quoted;
    CloseOverPlain(plain, quoted);
    assert CloseBrace(quoted, false) == Shift(1, CloseBrace(inside, true)) by {
      QuoteOpens(inside);
    }
    CloseAfterValue(pair.value, rest);
  }

  lemma QuoteOpens(inside: string)
    ensures CloseBrace("\"" + inside, false) == Shift(1, CloseBrace(inside, true))
  {
    assert ("\"" + inside)[1..] == inside;
  }

  lemma {:induction false} CloseOverMore(pairs: seq<LabelPair>, rest: string)
    requires Printable(pairs)
    ensures CloseBrace(MoreItems(pairs) + rest, false) == Shift(|MoreItems(pairs)|, CloseBrace(rest, false))
  {
    hide CloseBrace, Item, IsKey;
    if pairs == [] {
      assert MoreItems(pairs) + rest == rest;
    } else {
      var tail := MoreItems(pairs[1..]) + rest;
      assert MoreItems(pairs) + rest == "," + (Item(pairs[0]) + tail);
      assert pairs[0] in pairs;
      CloseOverPlain(",", Item(pairs[0]) + tail);
      CloseOverItem(pairs[0], tail);
      CloseOverMore(pairs[1..], rest);
    }
  }

  /** The closing brace found is the printed one, whatever braces the values hold. */
  lemma CloseFindsPrinted(pairs: seq<LabelPair>, rest: string)
    requires Printable(pairs)
    ensures CloseBrace(Items(pairs) + "}" + rest, false) == Some(|Items(pairs)|)
  {
    hide CloseBrace, Item, IsKey;
    var brace := "}" + rest;
    assert CloseBrace(brace, false) == Some(0) by {
      BraceCloses(rest);
    }
    if pairs == [] {
      assert Items(pairs) + "}" + rest == brace;
    } else {
      assert Items(pairs) + "}" + rest == Item(pairs[0]) + (MoreItems(pairs[1..]) + brace);
      assert pairs[0] in pairs;
      CloseOverItem(pairs[0], MoreItems(pairs[1..]) + brace);
      CloseOverMore(pairs[1..], brace);
    }
  }

  lemma BraceCloses(rest: string)
    ensures CloseBrace("}" + rest, false) == Some(0)
  {
  }

  lemma {:induction false} KeyLengthOf(key: string, rest: string)
    requires (forall c :: c in key ==> IsKeyChar(c)) && (rest == "" || !IsKeyChar(rest[0]))
    ensures KeyLength(key + rest) == |key|
  {
    if key == "" {
      assert key + rest == rest;
    } else {
      assert (key + rest)[1..] == key[1..] + rest;
      KeyLengthOf(key[1..], rest);
    }
  }

  lemma NoSkip(rest: string)
    requires rest == "" || !IsAsciiSpace(rest[0])
    ensures SkipSpace(rest) == rest
  {
  }

  lemma ReadPrintedKey(pair: LabelPair, rest: string)
    requires IsKey(pair.key)
    ensures Item(pair) + rest != "" && SkipSpace(Item(pair) + rest) == Item(pair) + rest
    ensures ReadKey(Item(pair) + rest) == Ok((pair.key, Escape(pair.value) + "\"" + rest))
  {
    hide SkipSpace, KeyLength, Escape;
    var text := Item(pair) + rest;
    var equals := "=\"" + Escape(pair.value) + "\"" + rest;
    var quote := "\"" + Escape(pair.value) + "\"" + rest;
    assert pair.key[0] in pair.key;
    assert text == pair.key + equals;
    assert text[|pair.key|..] == equals && text[..|pair.key|] == pair.key;
    KeyLengthOf(pair.key, equals);
    assert equals[1..] == quote && quote[1..] == Escape(pair.value) + "\"" + rest;
    NoSkip(text);
    NoSkip(equals);
    NoSkip(quote);
  }

  /** What the exporters print between the braces, the console reads back pair for pair. */
  lemma {:induction false} LabelsRoundTrip(pairs: seq<LabelPair>)
    requires Printable(pairs)
    ensures ParseLabels(Items(pairs)) == Ok(pairs)
  {
    hide SkipSpace, ReadPair, Item, IsKey;
    if pairs == [] {
      NoSkip("");
    } else {
      var pair, more := pairs[0], MoreItems(pairs[1..]);
      assert pair in pairs && pairs == [pair] + pairs[1..];
      NoSkip(more);
      MoreIsItems(pairs[1..]);
      ReadPrintedPair(pair, more);
      assert Items(pairs) == Item(pair) + more;
      hide Items, MoreItems;
      if pairs[1..] != [] {
        LabelsRoundTrip(pairs[1..]);
      } else {
        assert pairs == [pair];
      }
    }
  }

  lemma ReadPrintedPair(pair: LabelPair, rest: string)
    requires IsKey(pair.key)
    ensures Item(pair) + rest != "" && SkipSpace(Item(pair) + rest) == Item(pair) + rest
    ensures ReadPair(Item(pair) + rest) == Ok((pair, rest))
  {
    hide SkipSpace, ReadKey, ReadValue, Item, Escape;
    ReadPrintedKey(pair, rest);
    ReadEscaped(pair.value, rest);
  }

  lemma MoreIsItems(pairs: seq<LabelPair>)
    ensures pairs != [] ==> MoreItems(pairs) != "" && MoreItems(pairs)[0] == ',' && MoreItems(pairs)[1..] == Items(pairs)
    ensures pairs == [] ==> MoreItems(pairs) == ""
  {
    if pairs != [] {
      assert MoreItems(pairs) == "," + Items(pairs);
    }
  }

  // ---- the two scanners agree ------------------------------------------------------------

  /** A brace put right after `text` is where `close_brace` stops. */
  ghost predicate Closes(text: string, inQuotes: bool) {
    CloseBrace(text + "}", inQuotes) == Some(|text|)
  }

  lemma {:induction false} FoundCloses(rest: string, inQuotes: bool)
    ensures var found := CloseBrace(rest, inQuotes);
      found.Some? ==> Closes(rest[..found.value], inQuotes)
    decreases |rest|
  {
    var found := CloseBrace(rest, inQuotes);
    if found.Some? && !(rest[0] == '}' && !inQuotes) {
      var step := if inQuotes && rest[0] == '\\' then 2 else 1;
      FoundCloses(rest[step..], if step == 1 && rest[0] == '"' then !inQuotes else inQuotes);
      var text := rest[..found.value];
      assert text[step..] == rest[step..][..found.value - step];
      assert (text + "}")[step..] == text[step..] + "}";
    }
  }

  lemma ClosesPast(text: string)
    requires Closes(text, false) && text != ""
    ensures Closes(text[1..], text[0] == '"')
  {
    assert (text + "}")[1..] == text[1..] + "}";
  }

  lemma {:induction false} ClosesAfterSpace(text: string)
    requires Closes(text, false)
    ensures Closes(SkipSpace(text), false)
  {
    if text != "" && IsAsciiSpace(text[0]) {
      ClosesPast(text);
      ClosesAfterSpace(text[1..]);
    }
  }

  lemma {:induction false} ClosesAfterKey(text: string)
    requires Closes(text, false)
    ensures Closes(text[KeyLength(text)..], false)
  {
    if text != "" && IsKeyChar(text[0]) {
      ClosesPast(text);
      ClosesAfterKey(text[1..]);
      assert text[1..][KeyLength(text[1..])..] == text[KeyLength(text)..];
    } else {
      assert text[0..] == text;
    }
  }

  /** Inside quotes: the value reader cannot run out before the brace scanner's close. */
  lemma {:induction false} ClosesAfterValue(text: string)
    requires Closes(text, true)
    ensures var read := ReadValue(text);
      && read != Err(UnterminatedValue) && read != Err(DanglingEscape)
      && (read.Ok? ==> Closes(read.value.1, false))
    decreases |text|
  {
    assert text != "";
    var step := if text[0] == '\\' then 2 else 1;
    if step <= |text| {
      assert (text + "}")[step..] == text[step..] + "}";
    }
    if text[0] != '"' {
      ClosesAfterValue(text[step..]);
    }
  }

  lemma ClosesAfterReadKey(text: string)
    requires Closes(text, false)
    ensures var read := ReadKey(text);
      && read != Err(UnterminatedValue) && read != Err(DanglingEscape)
      && (read.Ok? ==> Closes(read.value.1, true))
  {
    hide SkipSpace, KeyLength, Closes;
    ClosesAfterKey(text);
    ClosesAfterSpace(text[KeyLength(text)..]);
    var equals := SkipSpace(text[KeyLength(text)..]);
    if equals != "" && equals[0] == '=' {
      ClosesPast(equals);
      ClosesAfterSpace(equals[1..]);
      var quote := SkipSpace(equals[1..]);
      if quote != "" && quote[0] == '"' {
        ClosesPast(quote);
      }
    }
  }

  lemma ClosesAfterPair(text: string)
    requires Closes(text, false)
    ensures var read := ReadPair(text);
      && read != Err(UnterminatedValue) && read != Err(DanglingEscape)
      && (read.Ok? ==> Closes(read.value.1, false))
  {
    hide ReadKey, ReadValue, Closes;
    ClosesAfterReadKey(text);
    if ReadKey(text).Ok? {
      ClosesAfterValue(ReadKey(text).value.1);
    }
  }

  lemma {:induction false} ParseInsideClose(text: string)
    requires Closes(text, false)
    ensures ParseLabels(text) != Err(UnterminatedValue)
    ensures ParseLabels(text) != Err(DanglingEscape)
    decreases |text|
  {
    hide SkipSpace, ReadPair, Closes;
    ClosesAfterSpace(text);
    var start := SkipSpace(text);
    ClosesAfterPair(start);
    if start != "" && ReadPair(start).Ok? {
      var after := ReadPair(start).value.1;
      ClosesAfterSpace(after);
      var next := SkipSpace(after);
      if next != "" && next[0] == ',' {
        ClosesPast(next);
        ParseInsideClose(next[1..]);
      }
    }
  }

  /**
   The two scanners agree on quoting: on any text up to a brace `close_brace` found, `parse_labels`
   never runs out inside a value or an escape.
   */
  lemma ScannersAgree(line: string, open: nat)
    requires open < |line|
    ensures var close := CloseBrace(line[open + 1..], false);
      close.Some? ==>
        var labels := ParseLabels(line[open + 1..][..close.value]);
        labels != Err(UnterminatedValue) && labels != Err(DanglingEscape)
  {
    hide Closes, ParseLabels, CloseBrace;
    var rest := line[open + 1..];
    FoundCloses(rest, false);
    if CloseBrace(rest, false).Some? {
      ParseInsideClose(rest[..CloseBrace(rest, false).value]);
    }
  }
}
