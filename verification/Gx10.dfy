/** The gx10 exporter: one scrape's outcome rendered as an exposition. */
module Gx10 {
  import opened Prelude
  import opened Text
  import opened Labels
  import opened Exposition
  import opened Documents
  import opened Catalog

  const AGENT := "gx10"

  /** One GPU's readings. `None` is a probe that did not answer. */
  datatype Device = Device(
    index: nat,
    uuid: Option<string>,
    name: Option<string>,
    utilization: Option<F64>,
    power: Option<F64>,
    temperature: Option<F64>,
    memoryUsed: Option<nat>,
    memoryTotal: Option<nat>)

  datatype Field = Utilization | Power | Temperature | MemoryUsed | MemoryTotal

  const FIELDS: seq<Field> := [Utilization, Power, Temperature, MemoryUsed, MemoryTotal]

  function MetricOf(field: Field): string {
    match field
    case Utilization => GPU_UTILIZATION
    case Power => GPU_POWER
    case Temperature => GPU_TEMPERATURE
    case MemoryUsed => GPU_MEMORY_USED
    case MemoryTotal => GPU_MEMORY_TOTAL
  }

  /** What a probe measured, infinities and not-a-numbers counting as unanswered. */
  function ReadingOf(device: Device, field: Field): Option<F64> {
    match field
    case Utilization => FiniteOnly(device.utilization)
    case Power => FiniteOnly(device.power)
    case Temperature => FiniteOnly(device.temperature)
    case MemoryUsed => if device.memoryUsed.Some? then Some(Finite(device.memoryUsed.value as real)) else None
    case MemoryTotal => if device.memoryTotal.Some? then Some(Finite(device.memoryTotal.value as real)) else None
  }

  function FiniteOnly(value: Option<F64>): Option<F64> {
    if value.Some? && value.value.Finite? then value else None
  }

  /** `float`, or the integer's decimal text: how a reading is printed, or `None` to omit it. */
  function ReadingText(numbers: NumberText, device: Device, field: Field): Option<string> {
    match field
    case Utilization => FloatText(numbers, device.utilization)
    case Power => FloatText(numbers, device.power)
    case Temperature => FloatText(numbers, device.temperature)
    case MemoryUsed => IntegerText(numbers, device.memoryUsed)
    case MemoryTotal => IntegerText(numbers, device.memoryTotal)
  }

  function FloatText(numbers: NumberText, value: Option<F64>): Option<string> {
    if value.Some? && value.value.Finite? then Some(numbers.float(value.value)) else None
  }

  function IntegerText(numbers: NumberText, value: Option<nat>): Option<string> {
    if value.Some? then Some(numbers.integer(value.value)) else None
  }

  /** The label pairs identifying a device: its index, and whichever driver strings answered. */
  function DevicePairs(device: Device): seq<LabelPair> {
    [LabelPair("gpu", Decimal(device.index))]
    + (if device.uuid.Some? then [LabelPair("uuid", device.uuid.value)] else [])
    + (if device.name.Some? then [LabelPair("name", device.name.value)] else [])
  }

  function FieldLines(numbers: NumberText, devices: seq<Device>, field: Field): seq<DocLine> {
    if devices == [] then []
    else
      (match ReadingText(numbers, devices[0], field)
       case None => []
       case Some(token) =>
         [FieldLine(devices[0], field, token)])
      + FieldLines(numbers, devices[1..], field)
  }

  function ReadingOrZero(device: Device, field: Field): F64 {
    match ReadingOf(device, field)
    case Some(value) => value
    case None => Finite(0.0)
  }

  /** The header lines appear only above at least one sample. */
  function FamilyDoc(name: string, help: string, lines: seq<DocLine>): seq<DocLine> {
    if lines == [] then []
    else [Comment("# HELP " + name + " " + help), Comment("# TYPE " + name + " gauge")] + lines
  }

  function UpLine(up: bool): DocLine {
    Printed(Measurement(AGENT_UP, [LabelPair("agent", AGENT)], Finite(if up then 1.0 else 0.0)), if up then "1" else "0")
  }

  function DurationLine(numbers: NumberText, elapsed: F64): DocLine {
    Printed(Measurement(AGENT_DURATION, [LabelPair("agent", AGENT)], elapsed), numbers.float(elapsed))
  }

  function FamiliesDoc(numbers: NumberText, help: string -> string, devices: seq<Device>, fields: seq<Field>): seq<DocLine> {
    if fields == [] then []
    else
      FamilyDoc(MetricOf(fields[0]), help(MetricOf(fields[0])), FieldLines(numbers, devices, fields[0]))
      + FamiliesDoc(numbers, help, devices, fields[1..])
  }

  /** The whole document; without a device list it is the one family saying so. */
  function RenderDoc(numbers: NumberText, help: string -> string, devices: Option<seq<Device>>, elapsed: F64): seq<DocLine> {
    match devices
    case None => FamilyDoc(AGENT_UP, help(AGENT_UP), [UpLine(false)])
    case Some(list) =>
      FamilyDoc(AGENT_UP, help(AGENT_UP), [UpLine(true)])
      + (FamilyDoc(AGENT_DURATION, help(AGENT_DURATION), [DurationLine(numbers, elapsed)])
         + FamiliesDoc(numbers, help, list, FIELDS))
  }

  // ---- the renderer -----------------------------------------------------------------------

  /** `labels`: the inside of a device's label set. */
  method DeviceLabels(device: Device) returns (labels: string)
    ensures labels == Items(DevicePairs(device))
  {
    hide Escape, Item, Decimal, Items;
    IndexItem(device.index);
    labels := "gpu=\"" + Decimal(device.index) + "\"";
    var pairs := [LabelPair("gpu", Decimal(device.index))];
    if device.uuid.Some? {
      var pair := LabelPair("uuid", device.uuid.value);
      labels := PushLabel(labels, pairs, pair);
      pairs := pairs + [pair];
    }
    if device.name.Some? {
      var pair := LabelPair("name", device.name.value);
      labels := PushLabel(labels, pairs, pair);
      pairs := pairs + [pair];
    }
    assert pairs == DevicePairs(device);
  }

  /** `labels.push_str(&format!(",key=\"{}\"", escape(value)))`. */
  method PushLabel(labels: string, ghost pairs: seq<LabelPair>, pair: LabelPair) returns (out: string)
    requires pairs != [] && labels == Items(pairs)
    ensures out == Items(pairs + [pair])
  {
    hide Escape, Items;
    var value := EscapeText(pair.value);
    ItemsSnoc(pairs, pair);
    out := labels + "," + (pair.key + "=\"" + value + "\"");
  }

  lemma IndexItem(n: nat)
    ensures Items([LabelPair("gpu", Decimal(n))]) == "gpu=\"" + Decimal(n) + "\""
  {
    hide Decimal, Escape;
    EscapeDecimal(n);
    var pairs := [LabelPair("gpu", Decimal(n))];
    assert pairs[1..] == [];
    assert Items(pairs) == Item(pairs[0]) + "";
  }

  lemma EscapeDecimal(n: nat)
    ensures Escape(Decimal(n)) == Decimal(n)
  {
    EscapePlain(Decimal(n));
  }

  function Texts(lines: seq<DocLine>): seq<string> {
    seq(|lines|, i requires 0 <= i < |lines| => LineText(lines[i]))
  }

  /** `family`: appends HELP, TYPE and the samples, or nothing at all. */
  method Family(before: string, name: string, help: string, lines: seq<string>, ghost printed: seq<DocLine>)
    returns (out: string)
    requires lines == Texts(printed)
    ensures out == before + DocText(FamilyDoc(name, help, printed))
  {
    hide LineText, DocText;
    EmptyDoc();
    out := before;
    if lines == [] {
      assert before + "" == before;
      return;
    }
    out := out + ("# HELP " + name + " " + help + "\n");
    CommentStep(before, "# HELP " + name + " " + help);
    out := out + ("# TYPE " + name + " gauge" + "\n");
    ghost var doc := [Comment("# HELP " + name + " " + help)];
    CommentText("# TYPE " + name + " gauge");
    DocSnoc(before, doc, Comment("# TYPE " + name + " gauge"));
    doc := doc + [Comment("# TYPE " + name + " gauge")];
    ghost var head := doc;
    for i := 0 to |lines|
      invariant doc == head + printed[..i]
      invariant out == before + DocText(doc)
    {
      DocSnoc(before, doc, printed[i]);
      doc := doc + [printed[i]];
      assert printed[..i] + [printed[i]] == printed[..i + 1];
      out := out + (lines[i] + "\n");
    }
    assert printed[..|printed|] == printed;
    assert doc == FamilyDoc(name, help, printed);
  }

  lemma CommentStep(before: string, text: string)
    ensures before + (text + "\n") == before + DocText([Comment(text)])
  {
    DocStep(Comment(text), []);
    assert [Comment(text)] + [] == [Comment(text)];
  }

  function FieldLine(device: Device, field: Field, token: string): DocLine {
    Printed(Measurement(MetricOf(field), DevicePairs(device), ReadingOrZero(device, field)), token)
  }

  lemma FieldLineText(device: Device, field: Field, token: string)
    ensures LineText(FieldLine(device, field, token)) ==
      MetricOf(field) + "{" + Items(DevicePairs(device)) + "} " + token
  {
    hide Items, DevicePairs, MetricOf;
    DeviceLabelled(device);
    var name, items := MetricOf(field), Items(DevicePairs(device));
    assert name + ("{" + items + "}") + " " + token == name + "{" + items + "} " + token;
  }

  /** The texts of the devices from `i` on, one step unfolded. */
  lemma FieldTextsStep(numbers: NumberText, devices: seq<Device>, field: Field, i: nat)
    requires i < |devices|
    ensures var text := ReadingText(numbers, devices[i], field);
      Texts(FieldLines(numbers, devices[i..], field)) ==
      (if text.None? then [] else [LineText(FieldLine(devices[i], field, text.value))])
      + Texts(FieldLines(numbers, devices[i + 1..], field))
  {
    hide LineText, DevicePairs, MetricOf, ReadingText, ReadingOrZero;
    assert devices[i..][0] == devices[i] && devices[i..][1..] == devices[i + 1..];
  }

  method FieldTexts(numbers: NumberText, devices: seq<Device>, field: Field) returns (lines: seq<string>)
    ensures lines == Texts(FieldLines(numbers, devices, field))
  {
    hide Items, DevicePairs, MetricOf, ReadingText, LineText, FieldLine, Texts, FieldLines;
    lines := [];
    var i := 0;
    assert devices[0..] == devices;
    ghost var all := Texts(FieldLines(numbers, devices, field));
    assert [] + all == all;
    while i < |devices|
      invariant 0 <= i <= |devices|
      invariant lines + Texts(FieldLines(numbers, devices[i..], field)) == all
    {
      FieldTextsStep(numbers, devices, field, i);
      ghost var rest := Texts(FieldLines(numbers, devices[i + 1..], field));
      var text := ReadingText(numbers, devices[i], field);
      if text.Some? {
        var labels := DeviceLabels(devices[i]);
        FieldLineText(devices[i], field, text.value);
        var line := MetricOf(field) + "{" + labels + "} " + text.value;
        Assoc(lines, [line], rest);
        lines := lines + [line];
      } else {
        assert [] + rest == rest;
      }
      i := i + 1;
    }
    assert devices[i..] == [];
    NoTexts(numbers, field);
    assert lines + [] == lines;
  }

  lemma NoTexts(numbers: NumberText, field: Field)
    ensures Texts(FieldLines(numbers, [], field)) == []
  {
  }

  lemma DeviceLabelled(device: Device)
    ensures LabelSet(DevicePairs(device)) == "{" + Items(DevicePairs(device)) + "}"
  {
  }

  /** The device families in declared order, each over all devices before the next begins. */
  method Families(before: string, numbers: NumberText, help: string -> string, devices: seq<Device>) returns (out: string)
    ensures out == before + DocText(FamiliesDoc(numbers, help, devices, FIELDS))
  {
    hide DocText, FamilyDoc, MetricOf, FieldLines;
    out := before;
    var families := FIELDS;
    var i := 0;
    assert families[0..] == families;
    while i < |families|
      invariant 0 <= i <= |families|
      invariant out + DocText(FamiliesDoc(numbers, help, devices, families[i..]))
             == before + DocText(FamiliesDoc(numbers, help, devices, families))
    {
      assert families[i..][0] == families[i] && families[i..][1..] == families[i + 1..];
      var name := MetricOf(families[i]);
      var lines := FieldTexts(numbers, devices, families[i]);
      ghost var family := FamilyDoc(name, help(name), FieldLines(numbers, devices, families[i]));
      ghost var rest := FamiliesDoc(numbers, help, devices, families[i + 1..]);
      DocTextAppend(family, rest);
      Assoc(out, DocText(family), DocText(rest));
      out := Family(out, name, help(name), lines, FieldLines(numbers, devices, families[i]));
      i := i + 1;
    }
    EmptyDoc();
    assert families[i..] == [] && out + "" == out;
  }

  /** `render`. The HELP texts are the caller's. */
  method Render(numbers: NumberText, help: string -> string, devices: Option<seq<Device>>, elapsed: F64)
    returns (out: string)
    ensures out == DocText(RenderDoc(numbers, help, devices, elapsed))
  {
    hide DocText, FamilyDoc, FamiliesDoc, UpLine, DurationLine;
    out := "";
    if devices.None? {
      AgentLine(false);
      out := Family(out, AGENT_UP, help(AGENT_UP), [AGENT_UP + "{agent=\"gx10\"} " + "0"], [UpLine(false)]);
      assert "" + DocText(FamilyDoc(AGENT_UP, help(AGENT_UP), [UpLine(false)])) == DocText(FamilyDoc(AGENT_UP, help(AGENT_UP), [UpLine(false)]));
      return;
    }
    AgentLine(true);
    out := Family(out, AGENT_UP, help(AGENT_UP), [AGENT_UP + "{agent=\"gx10\"} " + "1"], [UpLine(true)]);
    ghost var up := FamilyDoc(AGENT_UP, help(AGENT_UP), [UpLine(true)]);
    assert "" + DocText(up) == DocText(up);
    DurationText(numbers, elapsed);
    out := Family(out, AGENT_DURATION, help(AGENT_DURATION),
                  [AGENT_DURATION + "{agent=\"gx10\"} " + numbers.float(elapsed)], [DurationLine(numbers, elapsed)]);
    ghost var duration := FamilyDoc(AGENT_DURATION, help(AGENT_DURATION), [DurationLine(numbers, elapsed)]);
    out := Families(out, numbers, help, devices.value);
    ghost var rest := FamiliesDoc(numbers, help, devices.value, FIELDS);
    DocTextAppend(duration, rest);
    DocTextAppend(up, duration + rest);
    Assoc(DocText(up), DocText(duration), DocText(rest));
  }

  lemma AgentItem()
    ensures Item(LabelPair("agent", AGENT)) == "agent=\"gx10\""
  {
    hide Escape;
    EscapePlain(AGENT);
  }

  lemma AgentSet()
    ensures LabelSet([LabelPair("agent", AGENT)]) == "{agent=\"gx10\"}"
  {
    hide Escape, Item;
    AgentItem();
    var pairs := [LabelPair("agent", AGENT)];
    assert pairs[1..] == [];
    assert MoreItems([]) == "";
    var item := Item(pairs[0]);
    assert item + "" == item;
    assert Items(pairs) == item;
  }

  lemma AgentText(metric: string, value: F64, token: string)
    ensures Texts([Printed(Measurement(metric, [LabelPair("agent", AGENT)], value), token)]) ==
      [metric + "{agent=\"gx10\"} " + token]
  {
    hide LabelSet;
    AgentSet();
    assert metric + "{agent=\"gx10\"}" + " " + token == metric + "{agent=\"gx10\"} " + token;
  }

  lemma AgentLine(up: bool)
    ensures Texts([UpLine(up)]) == [AGENT_UP + "{agent=\"gx10\"} " + (if up then "1" else "0")]
  {
    hide Texts;
    AgentText(AGENT_UP, Finite(if up then 1.0 else 0.0), if up then "1" else "0");
  }

  lemma DurationText(numbers: NumberText, elapsed: F64)
    ensures Texts([DurationLine(numbers, elapsed)]) == [AGENT_DURATION + "{agent=\"gx10\"} " + numbers.float(elapsed)]
  {
    hide Texts;
    AgentText(AGENT_DURATION, elapsed, numbers.float(elapsed));
  }
}
