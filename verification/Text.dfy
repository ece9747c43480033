/** The pieces of Rust's text library the modelled code leans on, over sequences of characters. */
module Text {
  import opened Prelude

  predicate IsDigit(c: char) {
    '0' <= c <= '9'
  }

  predicate IsAlpha(c: char) {
    'a' <= c <= 'z' || 'A' <= c <= 'Z'
  }

  /** `u8::is_ascii_whitespace`. */
  predicate IsAsciiSpace(c: char) {
    c == ' ' || c == '\t' || c == '\n' || c == '\U{0C}' || c == '\r'
  }

  /** `char::is_whitespace`: the Unicode White_Space property. */
  predicate IsSpace(c: char) {
    || '\t' <= c <= '\r' || c == ' ' || c == '\U{85}' || c == '\U{A0}' || c == '\U{1680}'
    || '\U{2000}' <= c <= '\U{200A}' || c == '\U{2028}' || c == '\U{2029}' || c == '\U{202F}'
    || c == '\U{205F}' || c == '\U{3000}'
  }

  // ---- split ------------------------------------------------------------------

  /** `str::split`: always at least one piece. */
  function Split(text: string, sep: char): (pieces: seq<string>)
    ensures pieces != []
  {
    if text == "" then [""]
    else
      var rest := Split(text[1..], sep);
      if text[0] == sep then [""] + rest else [[text[0]] + rest[0]] + rest[1..]
  }

  function Join(pieces: seq<string>, sep: char): string
    requires pieces != []
  {
    if |pieces| == 1 then pieces[0] else pieces[0] + [sep] + Join(pieces[1..], sep)
  }

  /** Splitting loses nothing and leaves no separator behind. */
  lemma {:induction false} SplitJoins(text: string, sep: char)
    ensures Join(Split(text, sep), sep) == text
    ensures forall piece :: piece in Split(text, sep) ==> sep !in piece
  {
    if text != "" {
      SplitJoins(text[1..], sep);
      var rest := Split(text[1..], sep);
      assert text == [text[0]] + text[1..] && rest[0] in rest;
      JoinMore(rest, sep, text[0]);
    }
  }

  /** One more character in front: a piece of its own boundary, or part of the first piece. */
  lemma JoinMore(rest: seq<string>, sep: char, c: char)
    requires rest != []
    ensures Join([""] + rest, sep) == [sep] + Join(rest, sep)
    ensures Join([[c] + rest[0]] + rest[1..], sep) == [c] + Join(rest, sep)
  {
    assert ([""] + rest)[1..] == rest;
    var head := [c] + rest[0];
    assert ([head] + rest[1..])[1..] == rest[1..];
  }

  function NonEmpty(pieces: seq<string>): seq<string> {
    if pieces == [] then []
    else (if pieces[0] == "" then [] else [pieces[0]]) + NonEmpty(pieces[1..])
  }

  /** `pair.split_once(sep).unwrap_or((pair, ""))`. */
  function SplitOnce(pair: string, sep: char): (string, string) {
    if pair == "" then ("", "")
    else if pair[0] == sep then ("", pair[1..])
    else var (key, value) := SplitOnce(pair[1..], sep); ([pair[0]] + key, value)
  }

  // ---- trim and lines ------------------------------------------------------------

  function TrimStart(text: string): string {
    if text != "" && IsSpace(text[0]) then TrimStart(text[1..]) else text
  }

  function TrimEnd(text: string): string {
    if text != "" && IsSpace(text[|text| - 1]) then TrimEnd(text[..|text| - 1]) else text
  }

  function Trim(text: string): string {
    TrimEnd(TrimStart(text))
  }

  /** One `\r` directly before the line feed belongs to the line ending. */
  function StripReturn(line: string): string {
    if line != "" && line[|line| - 1] == '\r' then line[..|line| - 1] else line
  }

  /** Everything before the first line feed, and everything after it. */
  function FirstLine(text: string): (split: (string, Option<string>))
    ensures split.1.Some? ==> |split.1.value| < |text|
    ensures '\n' !in split.0
  {
    if text == "" then ("", None)
    else if text[0] == '\n' then ("", Some(text[1..]))
    else var (line, rest) := FirstLine(text[1..]); ([text[0]] + line, rest)
  }

  /** `str::lines`: a last line without a line feed counts, an empty one does not. */
  function Lines(text: string): seq<string>
    decreases |text|
  {
    if text == "" then []
    else
      var (line, rest) := FirstLine(text);
      match rest
      case Some(more) => [StripReturn(line)] + Lines(more)
      case None => [line]
  }

  lemma {:induction false} FirstLineOf(line: string, rest: string)
    requires '\n' !in line
    ensures FirstLine(line + "\n" + rest) == (line, Some(rest))
  {
    var text := line + "\n" + rest;
    if line == "" {
      assert text[1..] == rest;
    } else {
      assert text[1..] == line[1..] + "\n" + rest;
      FirstLineOf(line[1..], rest);
      assert line == [line[0]] + line[1..];
    }
  }

  lemma LinesOf(line: string, rest: string)
    requires '\n' !in line
    ensures Lines(line + "\n" + rest) == [StripReturn(line)] + Lines(rest)
  {
    FirstLineOf(line, rest);
  }

  lemma TrimKeeps(text: string)
    requires text != "" && !IsSpace(text[0]) && !IsSpace(text[|text| - 1])
    ensures Trim(text) == text
  {
  }

  // ---- numbers -------------------------------------------------------------------------

  function DigitChar(d: nat): char
    requires d < 10
  {
    '0' + d as char
  }

  function DigitValue(c: char): nat
    requires IsDigit(c)
  {
    (c - '0') as nat
  }

  /** Decimal, without leading zeros. */
  function Decimal(n: nat): (text: string)
    ensures text != "" && forall c :: c in text ==> IsDigit(c)
  {
    if n < 10 then [DigitChar(n)] else Decimal(n / 10) + [DigitChar(n % 10)]
  }

  function DecimalValue(text: string): nat
    requires forall c :: c in text ==> IsDigit(c)
  {
    if text == "" then 0
    else DecimalValue(text[..|text| - 1]) * 10 + DigitValue(text[|text| - 1])
  }

  lemma {:induction false} DecimalRoundTrip(n: nat)
    ensures DecimalValue(Decimal(n)) == n
  {
    if n < 10 {
      assert [DigitChar(n)][..0] == "";
    } else {
      DecimalRoundTrip(n / 10);
      var text := Decimal(n);
      assert text[..|text| - 1] == Decimal(n / 10);
    }
  }

  /** Distinct numbers print differently. */
  lemma DecimalInjective(a: nat, b: nat)
    ensures Decimal(a) == Decimal(b) <==> a == b
  {
    DecimalRoundTrip(a);
    DecimalRoundTrip(b);
  }

  /** `str::parse::<i64>`: an optional sign, at least one digit, and a value that fits. */
  function ParseI64(text: string): Option<int> {
    var negative := text != "" && text[0] == '-';
    var digits := if text != "" && text[0] in {'-', '+'} then text[1..] else text;
    if digits == "" || exists c :: c in digits && !IsDigit(c) then None
    else
      var magnitude: int := DecimalValue(digits);
      var value: int := if negative then -magnitude else magnitude;
      if -0x8000_0000_0000_0000 <= value <= 0x7FFF_FFFF_FFFF_FFFF then Some(value) else None
  }

  /** Every `i64` printed in decimal parses back to itself. */
  lemma IntegerRoundTrip(value: int)
    requires -0x8000_0000_0000_0000 <= value <= 0x7FFF_FFFF_FFFF_FFFF
    ensures ParseI64(if value < 0 then "-" + Decimal(-value) else Decimal(value)) == Some(value)
  {
    var n := if value < 0 then -value else value;
    DecimalRoundTrip(n);
    var text := Decimal(n);
    assert text[0] in text;
    assert ("-" + text)[1..] == text;
  }

  predicate AllDigits(text: string) {
    forall c :: c in text ==> IsDigit(c)
  }

  /** Signed decimal text, as it would be written down: digits, after at most one sign. */
  ghost predicate Writes(text: string, digits: string, n: int) {
    && digits != "" && AllDigits(digits)
    && (|| ((text == digits || text == "+" + digits) && n == DecimalValue(digits))
        || (text == "-" + digits && -n == DecimalValue(digits)))
  }

  /** A text is read as `n` exactly when it writes `n`, leading zeros and a plus sign allowed, and `n` fits. */
  lemma ReadsWhatIsWritten(text: string, n: int)
    ensures ParseI64(text) == Some(n) <==>
      -0x8000_0000_0000_0000 <= n <= 0x7FFF_FFFF_FFFF_FFFF && exists digits :: Writes(text, digits, n)
  {
    hide DecimalValue;
    var digits := if text != "" && text[0] in {'-', '+'} then text[1..] else text;
    if ParseI64(text) == Some(n) {
      assert text != "" && text[0] in {'-', '+'} ==> text == [text[0]] + digits;
      assert Writes(text, digits, n);
    }
    if d :| Writes(text, d, n) {
      assert d[0] in d && !IsDigit('-') && !IsDigit('+');
      assert digits == d;
    }
  }
}
