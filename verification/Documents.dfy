/** An exposition document as its lines: comments, and printed samples. */
module Documents {
  import opened Prelude
  import opened Text
  import opened Labels
  import opened Exposition

  datatype DocLine = Comment(text: string) | Printed(sample: Measurement, token: string)

  function LineText(line: DocLine): string {
    match line
    case Comment(text) => text
    case Printed(m, token) => SampleLine(m.metric, m.labels, token)
  }

  function DocText(doc: seq<DocLine>): string {
    if doc == [] then "" else LineText(doc[0]) + "\n" + DocText(doc[1..])
  }

  function Measurements(doc: seq<DocLine>): seq<Measurement> {
    if doc == [] then []
    else (if doc[0].Printed? then [doc[0].sample] else []) + Measurements(doc[1..])
  }

  lemma EmptyDoc()
    ensures DocText([]) == ""
  {
  }

  ghost predicate PrintableDoc(numbers: NumberText, doc: seq<DocLine>) {
    forall line :: line in doc ==>
      match line
      case Comment(text) => text != "" && text[0] == '#' && '\n' !in text
      case Printed(m, token) => PrintableLine(numbers, m, token)
  }

  /** Parsing a printed document yields exactly its printed samples, in order. */
  lemma {:induction false} DocumentRoundTrip(numbers: NumberText, doc: seq<DocLine>)
    requires PrintableDoc(numbers, doc)
    ensures Parse(numbers, DocText(doc)) == Measurements(doc)
  {
    if doc == [] {
      assert Lines("") == [];
    } else {
      hide Parse, ParseLine, Lines, PrintableLine, SampleLine;
      var line, rest := doc[0], DocText(doc[1..]);
      assert line in doc;
      PrintableTail(numbers, doc);
      DocumentRoundTrip(numbers, doc[1..]);
      match line {
        case Comment(text) => ParseComment(numbers, text, rest);
        case Printed(m, token) => ParseSample(numbers, m, token, rest);
      }
    }
  }

  lemma PrintableTail(numbers: NumberText, doc: seq<DocLine>)
    requires PrintableDoc(numbers, doc) && doc != []
    ensures PrintableDoc(numbers, doc[1..])
  {
    hide PrintableLine;
    assert forall line :: line in doc[1..] ==> line in doc;
  }

  lemma DocStep(line: DocLine, rest: seq<DocLine>)
    ensures DocText([line] + rest) == LineText(line) + "\n" + DocText(rest)
    ensures Measurements([line] + rest) == (if line.Printed? then [line.sample] else []) + Measurements(rest)
  {
    hide LineText;
    assert ([line] + rest)[1..] == rest;
  }

  lemma {:induction false} DocTextAppend(a: seq<DocLine>, b: seq<DocLine>)
    ensures DocText(a + b) == DocText(a) + DocText(b)
  {
    if a == [] {
      assert a + b == b;
    } else {
      var tail := a[1..];
      DocTextAppend(tail, b);
      assert a == [a[0]] + tail;
      Assoc([a[0]], tail, b);
      DocStep(a[0], tail);
      DocStep(a[0], tail + b);
      hide DocText, Measurements, LineText;
      Assoc(LineText(a[0]) + "\n", DocText(tail), DocText(b));
    }
  }

  lemma {:induction false} MeasurementsAppend(a: seq<DocLine>, b: seq<DocLine>)
    ensures Measurements(a + b) == Measurements(a) + Measurements(b)
  {
    if a == [] {
      assert a + b == b;
    } else {
      var tail := a[1..];
      MeasurementsAppend(tail, b);
      assert a == [a[0]] + tail;
      Assoc([a[0]], tail, b);
      DocStep(a[0], tail);
      DocStep(a[0], tail + b);
      hide DocText, Measurements, LineText;
      Assoc(if a[0].Printed? then [a[0].sample] else [], Measurements(tail), Measurements(b));
    }
  }

  lemma PrintableAppend(numbers: NumberText, a: seq<DocLine>, b: seq<DocLine>)
    requires PrintableDoc(numbers, a) && PrintableDoc(numbers, b)
    ensures PrintableDoc(numbers, a + b)
  {
    hide PrintableLine;
  }

  lemma CommentText(text: string)
    ensures LineText(Comment(text)) == text
  {
  }

  /** One more line pushed onto a document's text. */
  lemma DocSnoc(before: string, doc: seq<DocLine>, line: DocLine)
    ensures before + DocText(doc) + (LineText(line) + "\n") == before + DocText(doc + [line])
  {
    hide LineText;
    DocTextAppend(doc, [line]);
    DocStep(line, []);
    assert [line] + [] == [line];
    assert DocText([line]) == LineText(line) + "\n";
    Assoc(before, DocText(doc), LineText(line) + "\n");
  }

  lemma BothPrint(numbers: NumberText, a: seq<DocLine>, b: seq<DocLine>)
    requires PrintableDoc(numbers, a) && PrintableDoc(numbers, b)
    ensures PrintableDoc(numbers, a + b) && Measurements(a + b) == Measurements(a) + Measurements(b)
  {
    PrintableAppend(numbers, a, b);
    MeasurementsAppend(a, b);
  }

  lemma CommentPrintable(numbers: NumberText, text: string)
    requires text != "" && text[0] == '#' && '\n' !in text
    ensures PrintableDoc(numbers, [Comment(text)])
    ensures Measurements([Comment(text)]) == []
  {
    assert [Comment(text)][1..] == [];
  }

  lemma HeadersOneLine(name: string, help: string)
    requires '\n' !in name && '\n' !in help
    ensures var text := "# HELP " + name + " " + help; text != "" && text[0] == '#' && '\n' !in text
    ensures var text := "# TYPE " + name + " gauge"; text != "" && text[0] == '#' && '\n' !in text
  {
  }

  lemma SamplePrintable(numbers: NumberText, line: DocLine)
    requires line.Printed? && PrintableLine(numbers, line.sample, line.token)
    ensures PrintableDoc(numbers, [line]) && Measurements([line]) == [line.sample]
  {
    hide PrintableLine;
    assert [line][1..] == [];
  }

  lemma EscapePlain(text: string)
    requires '\\' !in text && '"' !in text && '\n' !in text
    ensures Escape(text) == text
  {
  }
}
