/** The mac exporter: one scrape rendered as an exposition, and what the console stores from it. */
module Mac {
  import opened Prelude
  import opened Labels
  import opened Exposition
  import opened Documents
  import opened Catalog

  const AGENT := "mac"
  const SAMPLE_AGE := "muser_agent_sample_age_seconds"

  /** One power figure and the powermetrics line it was read from. */
  datatype PowerField = PowerField(sourceLabel: string, watts: F64)

  datatype Served = Served(
    package: Option<PowerField>,
    cpu: Option<PowerField>,
    gpu: Option<PowerField>,
    age: F64)

  datatype Scrape = Scrape(up: bool, duration: F64, served: Option<Served>, failed: bool)

  /** The comment lines whose wording is not modelled. */
  datatype Comments = Comments(help: string -> string, provenance: string, failure: string)

  ghost predicate OneLineComments(comments: Comments) {
    && (forall metric :: '\n' !in comments.help(metric))
    && comments.provenance != "" && comments.provenance[0] == '#' && '\n' !in comments.provenance
    && comments.failure != "" && comments.failure[0] == '#' && '\n' !in comments.failure
  }

  // ---- rendering -----------------------------------------------------------------------

  /** `labels`: `{a="1",b="2"}`, or nothing for no labels. */
  method LabelsText(pairs: seq<LabelPair>) returns (out: string)
    ensures out == LabelSet(pairs)
  {
    hide Escape;
    if pairs == [] {
      return "";
    }
    out := "";
    var i := 0;
    while i < |pairs|
      invariant 0 <= i <= |pairs|
      invariant out == ItemsUpTo(pairs, i)
    {
      var value := EscapeText(pairs[i].value);
      var item := pairs[i].key + "=\"" + value + "\"";
      ItemsUpToStep(pairs, i);
      if i > 0 {
        out := out + ",";
      }
      out := out + item;
      i := i + 1;
    }
    assert pairs[..|pairs|] == pairs;
    out := "{" + out + "}";
  }

  function ItemsUpTo(pairs: seq<LabelPair>, n: nat): string
    requires n <= |pairs|
  {
    Items(pairs[..n])
  }

  lemma ItemsUpToStep(pairs: seq<LabelPair>, n: nat)
    requires n < |pairs|
    ensures ItemsUpTo(pairs, n + 1) == (if n > 0 then ItemsUpTo(pairs, n) + "," else ItemsUpTo(pairs, n)) + Item(pairs[n])
    ensures ItemsUpTo(pairs, 0) == ""
  {
    hide Item;
    assert pairs[..n + 1] == pairs[..n] + [pairs[n]];
    if n == 0 {
      assert pairs[..0] == [];
      assert [pairs[0]][1..] == [];
      assert Items([pairs[0]]) == Item(pairs[0]) + MoreItems([]);
    } else {
      ItemsSnoc(pairs[..n], pairs[n]);
    }
  }

  function AgentLine(metric: string, value: F64, token: string): DocLine {
    Printed(Measurement(metric, [LabelPair("agent", AGENT)], value), token)
  }

  /** HELP, TYPE and one sample. */
  function Family(comments: Comments, line: DocLine): seq<DocLine>
    requires line.Printed?
  {
    [Comment("# HELP " + line.sample.metric + " " + comments.help(line.sample.metric)),
     Comment("# TYPE " + line.sample.metric + " gauge"),
     line]
  }

  /** The host's own name when it is known, and always the source line; never an invented host. */
  function FieldPairs(host: Option<string>, field: PowerField): seq<LabelPair> {
    match host
    case Some(name) => [LabelPair("host", name), LabelPair("source", field.sourceLabel)]
    case None => [LabelPair("source", field.sourceLabel)]
  }

  function SourceComment(metric: string, field: PowerField): string {
    "# " + metric + " is read from the powermetrics line \"" + Escape(field.sourceLabel) + "\"."
  }

  function FieldDoc(numbers: NumberText, comments: Comments, host: Option<string>, metric: string, field: Option<PowerField>): seq<DocLine> {
    match field
    case None => []
    case Some(f) =>
      [Comment(SourceComment(metric, f))]
      + Family(comments, Printed(Measurement(metric, FieldPairs(host, f), f.watts), numbers.float(f.watts)))
  }

  function RenderDoc(numbers: NumberText, comments: Comments, scrape: Scrape, host: Option<string>): seq<DocLine> {
    Family(comments, AgentLine(AGENT_UP, Finite(if scrape.up then 1.0 else 0.0), if scrape.up then "1" else "0"))
    + match scrape.served
      case None => if scrape.failed then [Comment(comments.failure)] else []
      case Some(served) =>
        Family(comments, AgentLine(AGENT_DURATION, scrape.duration, numbers.float(scrape.duration)))
        + (Family(comments, AgentLine(SAMPLE_AGE, served.age, numbers.float(served.age)))
        + ([Comment(comments.provenance)]
        + (FieldDoc(numbers, comments, host, HOST_PACKAGE, served.package)
        + (FieldDoc(numbers, comments, host, HOST_CPU, served.cpu)
        + FieldDoc(numbers, comments, host, HOST_GPU, served.gpu)))))
  }

  /** Pushes one line, whatever its kind, as the source's `push_str` calls do. */
  method PushLine(out: string, ghost doc: seq<DocLine>, line: DocLine) returns (more: string)
    requires out == DocText(doc)
    ensures more == DocText(doc + [line])
  {
    hide DocText;
    DocSnoc("", doc, line);
    assert "" + DocText(doc) == DocText(doc) && "" + DocText(doc + [line]) == DocText(doc + [line]);
    match line {
      case Comment(text) => more := out + (text + "\n");
      case Printed(m, token) =>
        var shown := LabelsText(m.labels);
        more := out + (m.metric + shown + " " + token + "\n");
    }
  }

  method PushFamily(out: string, ghost doc: seq<DocLine>, comments: Comments, line: DocLine) returns (more: string)
    requires line.Printed? && out == DocText(doc)
    ensures more == DocText(doc + Family(comments, line))
  {
    hide DocText;
    var metric := line.sample.metric;
    var help, kind := Comment("# HELP " + metric + " " + comments.help(metric)), Comment("# TYPE " + metric + " gauge");
    more := PushLine(out, doc, help);
    more := PushLine(more, doc + [help], kind);
    more := PushLine(more, doc + [help] + [kind], line);
    assert doc + [help] + [kind] + [line] == doc + Family(comments, line);
  }

  /** `render_field`. */
  method PushField(out: string, ghost doc: seq<DocLine>, numbers: NumberText, comments: Comments, host: Option<string>, metric: string, field: Option<PowerField>)
    returns (more: string)
    requires out == DocText(doc)
    ensures more == DocText(doc + FieldDoc(numbers, comments, host, metric, field))
  {
    hide DocText, Escape, Family;
    match field {
      case None =>
        assert doc + [] == doc;
        more := out;
      case Some(f) =>
        var escaped := EscapeText(f.sourceLabel);
        var comment := Comment("# " + metric + " is read from the powermetrics line \"" + escaped + "\".");
        var line := Printed(Measurement(metric, FieldPairs(host, f), f.watts), numbers.float(f.watts));
        more := PushLine(out, doc, comment);
        more := PushFamily(more, doc + [comment], comments, line);
        Assoc(doc, [comment], Family(comments, line));
    }
  }

  /** `render`. */
  method Render(numbers: NumberText, comments: Comments, scrape: Scrape, host: Option<string>) returns (out: string)
    ensures out == DocText(RenderDoc(numbers, comments, scrape, host))
  {
    hide DocText, Family, FieldDoc, AgentLine;
    EmptyDoc();
    var up := AgentLine(AGENT_UP, Finite(if scrape.up then 1.0 else 0.0), if scrape.up then "1" else "0");
    AgentLinesPrint();
    out := PushFamily("", [], comments, up);
    ghost var doc := Family(comments, up);
    assert [] + doc == doc;
    match scrape.served {
      case None =>
        if scrape.failed {
          out := PushLine(out, doc, Comment(comments.failure));
        } else {
          assert doc + [] == doc;
        }
      case Some(served) =>
        var duration := AgentLine(AGENT_DURATION, scrape.duration, numbers.float(scrape.duration));
        var age := AgentLine(SAMPLE_AGE, served.age, numbers.float(served.age));
        out := PushFamily(out, doc, comments, duration);
        ghost var a, b := Family(comments, duration), Family(comments, age);
        out := PushFamily(out, doc + a, comments, age);
        out := PushLine(out, doc + a + b, Comment(comments.provenance));
        ghost var c := [Comment(comments.provenance)];
        ghost var d, e, f := FieldDoc(numbers, comments, host, HOST_PACKAGE, served.package),
                             FieldDoc(numbers, comments, host, HOST_CPU, served.cpu),
                             FieldDoc(numbers, comments, host, HOST_GPU, served.gpu);
        out := PushField(out, doc + a + b + c, numbers, comments, host, HOST_PACKAGE, served.package);
        out := PushField(out, doc + a + b + c + d, numbers, comments, host, HOST_CPU, served.cpu);
        out := PushField(out, doc + a + b + c + d + e, numbers, comments, host, HOST_GPU, served.gpu);
        SevenParts(doc, a, b, c, d, e, f);
    }
  }

  lemma SevenParts<T>(p: seq<T>, a: seq<T>, b: seq<T>, c: seq<T>, d: seq<T>, e: seq<T>, f: seq<T>)
    ensures p + (a + (b + (c + (d + (e + f))))) == p + a + b + c + d + e + f
  {
  }

  lemma AgentLinesPrint()
    ensures forall metric, value, token :: AgentLine(metric, value, token).Printed?
  {
  }
}
