/**
 What the text exposition format asks of a document's layout: the samples of a metric stand together, below
 one line that gives its type.
 */
module Groups {
  import opened Prelude
  import opened Exposition
  import opened Documents
  import opened Catalog
  import opened Gx10
  import GxToStore
  import Mac

  function TypeLine(metric: string): DocLine {
    Comment("# TYPE " + metric + " gauge")
  }

  /** The sample at `i` belongs to the type line at `h`: between them only samples of the same metric. */
  ghost predicate Under(doc: seq<DocLine>, h: int, i: int) {
    && 0 <= h < i < |doc| && doc[i].Printed? && doc[h] == TypeLine(doc[i].sample.metric)
    && forall k :: h < k < i ==> doc[k].Printed? && doc[k].sample.metric == doc[i].sample.metric
  }

  ghost predicate Grouped(doc: seq<DocLine>) {
    forall i :: 0 <= i < |doc| && doc[i].Printed? ==> exists h :: Under(doc, h, i)
  }

  lemma UnderLeft(a: seq<DocLine>, b: seq<DocLine>, h: int, i: int)
    requires Under(a, h, i)
    ensures Under(a + b, h, i)
  {
    hide TypeLine;
    assert forall k :: 0 <= k < |a| ==> (a + b)[k] == a[k];
  }

  lemma UnderRight(a: seq<DocLine>, b: seq<DocLine>, h: int, i: int)
    requires Under(b, h, i)
    ensures Under(a + b, h + |a|, i + |a|)
  {
    hide TypeLine;
    var doc := a + b;
    assert doc[h + |a|] == b[h] && doc[i + |a|] == b[i];
    forall k | h + |a| < k < i + |a|
      ensures doc[k].Printed? && doc[k].sample.metric == doc[i + |a|].sample.metric
    {
      assert doc[k] == b[k - |a|];
    }
  }

  lemma GroupedAppend(a: seq<DocLine>, b: seq<DocLine>)
    requires Grouped(a) && Grouped(b)
    ensures Grouped(a + b)
  {
    hide TypeLine, Under;
    var doc := a + b;
    forall i | 0 <= i < |doc| && doc[i].Printed?
      ensures exists h :: Under(doc, h, i)
    {
      if i < |a| {
        assert a[i].Printed?;
        var h :| Under(a, h, i);
        UnderLeft(a, b, h, i);
      } else {
        assert b[i - |a|].Printed?;
        var h :| Under(b, h, i - |a|);
        UnderRight(a, b, h, i - |a|);
      }
    }
  }

  /** A family: its type line directly above its samples. */
  lemma FamilyGrouped(before: seq<DocLine>, metric: string, lines: seq<DocLine>)
    requires forall line :: line in before ==> line.Comment?
    requires forall line :: line in lines ==> line.Printed? && line.sample.metric == metric
    ensures Grouped(before + [TypeLine(metric)] + lines)
  {
    hide TypeLine;
    assert TypeLine(metric).Comment? by {
      TypeIsComment(metric);
    }
    var h := |before|;
    var doc := before + [TypeLine(metric)] + lines;
    assert forall j :: 0 <= j < h ==> doc[j] == before[j] && before[j] in before;
    forall i | 0 <= i < |doc| && doc[i].Printed?
      ensures exists h :: Under(doc, h, i)
    {
      assert doc[h] == TypeLine(metric);
      forall k | h < k <= i
        ensures doc[k].Printed? && doc[k].sample.metric == metric
      {
        assert doc[k] == lines[k - h - 1];
      }
      assert Under(doc, h, i);
    }
  }

  lemma TypeIsComment(metric: string)
    ensures TypeLine(metric).Comment?
  {
  }

  // ---- the gx10 exporter -----------------------------------------------------------------------

  lemma FamilyDocGrouped(metric: string, help: string, lines: seq<DocLine>)
    requires forall line :: line in lines ==> line.Printed? && line.sample.metric == metric
    ensures Grouped(FamilyDoc(metric, help, lines))
  {
    if lines != [] {
      var head := [Comment("# HELP " + metric + " " + help)];
      FamilyGrouped(head, metric, lines);
      assert FamilyDoc(metric, help, lines) == head + [TypeLine(metric)] + lines;
    }
  }

  lemma {:induction false} FieldLinesOf(numbers: NumberText, devices: seq<Device>, field: Field)
    ensures forall line :: line in FieldLines(numbers, devices, field) ==> line.Printed? && line.sample.metric == MetricOf(field)
  {
    hide MetricOf, DevicePairs, ReadingText, ReadingOrZero;
    if devices != [] {
      FieldLinesOf(numbers, devices[1..], field);
    }
  }

  lemma {:induction false} FamiliesGrouped(numbers: NumberText, help: string -> string, devices: seq<Device>, fields: seq<Field>)
    ensures Grouped(FamiliesDoc(numbers, help, devices, fields))
  {
    hide Grouped, FamilyDoc, MetricOf, FieldLines;
    if fields == [] {
      NothingGrouped();
    } else {
      var name, lines := MetricOf(fields[0]), FieldLines(numbers, devices, fields[0]);
      FieldLinesOf(numbers, devices, fields[0]);
      FamilyDocGrouped(name, help(name), lines);
      FamiliesGrouped(numbers, help, devices, fields[1..]);
      GroupedAppend(FamilyDoc(name, help(name), lines), FamiliesDoc(numbers, help, devices, fields[1..]));
    }
  }

  lemma NothingGrouped()
    ensures Grouped([])
  {
  }

  /** Every document the gx10 exporter renders keeps each metric's samples together below its type line. */
  lemma RenderGrouped(numbers: NumberText, help: string -> string, devices: Option<seq<Device>>, elapsed: F64)
    ensures Grouped(RenderDoc(numbers, help, devices, elapsed))
  {
    hide Grouped, FamilyDoc, FamiliesDoc, AGENT_UP, AGENT_DURATION;
    FamilyDocGrouped(AGENT_UP, help(AGENT_UP), [UpLine(false)]);
    FamilyDocGrouped(AGENT_UP, help(AGENT_UP), [UpLine(true)]);
    if devices.Some? {
      var up, duration := FamilyDoc(AGENT_UP, help(AGENT_UP), [UpLine(true)]), FamilyDoc(AGENT_DURATION, help(AGENT_DURATION), [DurationLine(numbers, elapsed)]);
      var rest := FamiliesDoc(numbers, help, devices.value, FIELDS);
      FamilyDocGrouped(AGENT_DURATION, help(AGENT_DURATION), [DurationLine(numbers, elapsed)]);
      FamiliesGrouped(numbers, help, devices.value, FIELDS);
      GroupedAppend(duration, rest);
      GroupedAppend(up, duration + rest);
    }
  }

  function Typed(doc: seq<DocLine>, metric: string): nat {
    if doc == [] then 0 else (if doc[0] == TypeLine(metric) then 1 else 0) + Typed(doc[1..], metric)
  }

  lemma {:induction false} TypedAppend(a: seq<DocLine>, b: seq<DocLine>, metric: string)
    ensures Typed(a + b, metric) == Typed(a, metric) + Typed(b, metric)
  {
    hide TypeLine;
    if a == [] {
      assert a + b == b;
    } else {
      assert (a + b)[1..] == a[1..] + b;
      TypedAppend(a[1..], b, metric);
    }
  }

  lemma {:induction false} SamplesUntyped(lines: seq<DocLine>, metric: string)
    requires forall line :: line in lines ==> line.Printed?
    ensures Typed(lines, metric) == 0
  {
    if lines != [] {
      assert lines[0] in lines;
      SamplesUntyped(lines[1..], metric);
    }
  }

  lemma TypeLinesApart(a: string, b: string)
    ensures TypeLine(a) == TypeLine(b) <==> a == b
    ensures forall help :: Comment("# HELP " + a + " " + help) != TypeLine(b)
  {
    var x, y := "# TYPE " + a + " gauge", "# TYPE " + b + " gauge";
    assert x[7..] == a + " gauge" && y[7..] == b + " gauge";
    assert x == y ==> (a + " gauge")[..|a|] == (b + " gauge")[..|b|];
    forall help
      ensures Comment("# HELP " + a + " " + help) != TypeLine(b)
    {
      assert ("# HELP " + a + " " + help)[2] == 'H' && y[2] == 'T';
    }
  }

  lemma FamilyTyped(name: string, help: string, lines: seq<DocLine>, metric: string)
    requires forall line :: line in lines ==> line.Printed?
    ensures Typed(FamilyDoc(name, help, lines), metric) == if lines != [] && name == metric then 1 else 0
  {
    if lines != [] {
      TypeLinesApart(name, metric);
      var head := Comment("# HELP " + name + " " + help);
      assert FamilyDoc(name, help, lines) == [head] + ([TypeLine(name)] + lines);
      hide TypeLine;
      TypedAppend([TypeLine(name)], lines, metric);
      TypedAppend([head], [TypeLine(name)] + lines, metric);
      SamplesUntyped(lines, metric);
      assert [head][1..] == [] && [TypeLine(name)][1..] == [];
    }
  }

  ghost predicate DistinctFields(fields: seq<Field>) {
    forall i, j :: 0 <= i < j < |fields| ==> fields[i] != fields[j]
  }

  lemma {:induction false} FamiliesTyped(numbers: NumberText, help: string -> string, devices: seq<Device>, fields: seq<Field>, metric: string)
    requires DistinctFields(fields)
    ensures var typed := Typed(FamiliesDoc(numbers, help, devices, fields), metric);
      typed <= 1 && (typed == 1 ==> exists f :: f in fields && MetricOf(f) == metric)
  {
    hide FamilyDoc, MetricOf, FieldLines;
    if fields == [] {
      assert Typed([], metric) == 0;
    } else {
      var name, lines := MetricOf(fields[0]), FieldLines(numbers, devices, fields[0]);
      FieldLinesOf(numbers, devices, fields[0]);
      FamilyTyped(name, help(name), lines, metric);
      FamiliesTyped(numbers, help, devices, fields[1..], metric);
      TypedAppend(FamilyDoc(name, help(name), lines), FamiliesDoc(numbers, help, devices, fields[1..]), metric);
      GxToStore.MetricsDistinct();
    }
  }

  /** No metric is typed twice in a document the gx10 exporter renders. */
  lemma RenderTypedOnce(numbers: NumberText, help: string -> string, devices: Option<seq<Device>>, elapsed: F64, metric: string)
    ensures Typed(RenderDoc(numbers, help, devices, elapsed), metric) <= 1
  {
    hide Typed, FamilyDoc, FamiliesDoc, MetricOf, AGENT_UP, AGENT_DURATION;
    FamilyTyped(AGENT_UP, help(AGENT_UP), [UpLine(devices.Some?)], metric);
    if devices.Some? {
      var up, duration := FamilyDoc(AGENT_UP, help(AGENT_UP), [UpLine(true)]), FamilyDoc(AGENT_DURATION, help(AGENT_DURATION), [DurationLine(numbers, elapsed)]);
      var rest := FamiliesDoc(numbers, help, devices.value, FIELDS);
      FamilyTyped(AGENT_DURATION, help(AGENT_DURATION), [DurationLine(numbers, elapsed)], metric);
      FamiliesTyped(numbers, help, devices.value, FIELDS, metric);
      TypedAppend(duration, rest, metric);
      TypedAppend(up, duration + rest, metric);
      GxToStore.MetricsDistinct();
    }
  }

  // ---- the mac exporter -------------------------------------------------------------------------

  lemma MacFamilyGrouped(comments: Mac.Comments, line: DocLine)
    requires line.Printed?
    ensures Grouped(Mac.Family(comments, line))
  {
    var metric := line.sample.metric;
    var head := [Comment("# HELP " + metric + " " + comments.help(metric))];
    FamilyGrouped(head, metric, [line]);
    assert Mac.Family(comments, line) == head + [TypeLine(metric)] + [line];
  }

  lemma CommentGrouped(text: string)
    ensures Grouped([Comment(text)])
  {
  }

  lemma MacFieldGrouped(numbers: NumberText, comments: Mac.Comments, host: Option<string>, metric: string, field: Option<Mac.PowerField>)
    ensures Grouped(Mac.FieldDoc(numbers, comments, host, metric, field))
  {
    hide Grouped, Mac.Family, Mac.SourceComment;
    match field {
      case None => NothingGrouped();
      case Some(f) =>
        var line := Printed(Measurement(metric, Mac.FieldPairs(host, f), f.watts), numbers.float(f.watts));
        MacFamilyGrouped(comments, line);
        CommentGrouped(Mac.SourceComment(metric, f));
        GroupedAppend([Comment(Mac.SourceComment(metric, f))], Mac.Family(comments, line));
    }
  }

  /** Every document the mac exporter renders keeps each metric's samples together below its type line. */
  lemma MacRenderGrouped(numbers: NumberText, comments: Mac.Comments, scrape: Mac.Scrape, host: Option<string>)
    ensures Grouped(Mac.RenderDoc(numbers, comments, scrape, host))
  {
    hide Grouped, Mac.Family, Mac.FieldDoc;
    var value, token := Finite(if scrape.up then 1.0 else 0.0), if scrape.up then "1" else "0";
    var up := Mac.Family(comments, Mac.AgentLine(AGENT_UP, value, token));
    MacFamilyGrouped(comments, Mac.AgentLine(AGENT_UP, value, token));
    match scrape.served {
      case None =>
        var rest := if scrape.failed then [Comment(comments.failure)] else [];
        CommentGrouped(comments.failure);
        NothingGrouped();
        GroupedAppend(up, rest);
      case Some(served) =>
        var duration := Mac.AgentLine(AGENT_DURATION, scrape.duration, numbers.float(scrape.duration));
        var age := Mac.AgentLine(Mac.SAMPLE_AGE, served.age, numbers.float(served.age));
        var package := Mac.FieldDoc(numbers, comments, host, HOST_PACKAGE, served.package);
        var cpu := Mac.FieldDoc(numbers, comments, host, HOST_CPU, served.cpu);
        var gpu := Mac.FieldDoc(numbers, comments, host, HOST_GPU, served.gpu);
        MacFamilyGrouped(comments, duration);
        MacFamilyGrouped(comments, age);
        CommentGrouped(comments.provenance);
        MacFieldGrouped(numbers, comments, host, HOST_PACKAGE, served.package);
        MacFieldGrouped(numbers, comments, host, HOST_CPU, served.cpu);
        MacFieldGrouped(numbers, comments, host, HOST_GPU, served.gpu);
        GroupedAppend(cpu, gpu);
        GroupedAppend(package, cpu + gpu);
        GroupedAppend([Comment(comments.provenance)], package + (cpu + gpu));
        GroupedAppend(Mac.Family(comments, age), [Comment(comments.provenance)] + (package + (cpu + gpu)));
        GroupedAppend(Mac.Family(comments, duration), Mac.Family(comments, age) + ([Comment(comments.provenance)] + (package + (cpu + gpu))));
        GroupedAppend(up, Mac.Family(comments, duration) + (Mac.Family(comments, age) + ([Comment(comments.provenance)] + (package + (cpu + gpu)))));
    }
  }
}
